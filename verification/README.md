# IPL match store: ingestion, queries and caches

This project models the core of the IPL match service, a Spring/JPA application.
It covers two paths:

- **Upload.** A cricket match arrives as a JSON document. `MatchService.saveMatchData` walks it and appends rows to ten tables: Match, Team, Player, MatchPlayer, MatchTeam, Inning, Over, Delivery, Powerplay and Target. `MatchController.uploadJsonData` guards the call and evicts the query caches afterwards.
- **Queries.** `QueryService` answers five queries through Spring caches. The queries themselves are the JPQL queries of `MatchRepository` and `PlayerRepository`.

Files (one module each):

- `base.dfy`: Option, Result and a small arithmetic fact.
- `text.dfy`: decimal rendering and parsing of integers, and `String.trim`.
- `json.dfy`: the Jackson `JsonNode` tree, with its `path`, `asText`, `asInt`, `asBoolean`, `isEmpty` and missing-node defaults. `asInt` keeps 32 bits of a number, as Java's `(int)` cast does.
- `entities.dfy`: the rows of the ten tables, the `Tables` value, and `Valid`. `Valid` says that ids are positions and that every link points at an existing row.
- `store.dfy`: class `Store`, the repositories. Each `save` appends a row and hands out the next id of its table.
- `delivery.dfy`: class `Delivery`, with `setExtras` and the three mandatory links.
- `ingest_spec.dfy`: what `saveMatchData` writes, as pure functions of the tables before the call and the parsed document.
- `ingest_lemmas.dfy`: properties of those functions.
- `match_service.dfy`: the walk itself as imperative methods, one loop per level of the document. Each method is proved equal to its function in `ingest_spec.dfy`.
- `match_repository.dfy`, `player_repository.dfy`: the JPQL queries as functions of the tables.
- `query_service.dfy`: class `QueryService`. Its cache map is keyed by (cache name, key); the class also holds a ghost counter of repository queries.
- `match_controller.dfy`: `uploadJsonData`.

Jackson's `readTree`, the validator behind `isValidJson`, `LocalDate.parse` and `LocalDateTime.parse` are foreign code. They enter as the function fields of a `Codec` value.

Three behaviours of the code shape the model:

- **Cascade-saved innings.** The walk saves an inning directly only when its team name resolves to exactly one Team row. The source's own comment says "Save inning only if team is not null" (`MatchService.java:160-165`). The over loop that follows still sets that inning on each `Over`, and `Over`'s `CascadeType.PERSIST` (`Over.java:22`) then persists it, with no team. So an inning whose team does not resolve exists in the tables, with its score, whenever it has at least one over. Without overs it is not stored.
- **Global team lookup.** `teamRepository.findByName` (`MatchService.java:140`) searches every Team row, including those of earlier uploads. Uploading the same match twice therefore finds two rows per name, and every inning of the second copy gets no team.
- **Extras text.** The extras text is built as `name: value, ...` (`MatchService.java:211-218`), which is not JSON. Jackson's `readTree` rejects a text that starts with a letter unless it starts with `true`, `false` or `null`. So when the first extras field has a name like `wides`, `noballs`, `byes`, `legbyes` or `penalty`, `setExtras` stores `{}`. The model proves this only for a first field name that starts with a letter and does not start with one of those three words.

## Model

| member | source | states |
|---|---|---|
| MatchService.SaveMatchData | src/main/java/org/example/service/MatchService.java:57-243 | A document that does not parse yields an IOException outcome and changes no table. Otherwise the call ends normally. Every table except MatchTeam becomes exactly `Ingest` of the old tables. MatchTeam gains one row per new team, in an unspecified order. `Valid` is preserved. The unexpected-exception outcome never occurs. |
| IngestLemmas.IngestMatchRow | src/main/java/org/example/service/MatchService.java:64-100 | Exactly one Match row is appended, with the next id and the fields read from `info`. MatchTeam is untouched by the pure walk, and every table only grows. |
| IngestSpec.MatchDate | src/main/java/org/example/service/MatchService.java:70-81 | The date is present exactly when `dates` is an array whose first element has non-empty text that parses. It is absent when `dates` is missing, not an array or empty. |
| IngestSpec.MatchCreated | src/main/java/org/example/service/MatchService.java:85-96 | `created` is present exactly when its text is non-empty and parses as a date-time. It is absent when the field is missing. |
| IngestLemmas.IngestTeams | src/main/java/org/example/service/MatchService.java:103-109 | One Team row is appended per entry of `info.teams`, in order, named by that entry's text and with consecutive ids (`TeamRowsAppended`). |
| IngestLemmas.IngestPlayers | src/main/java/org/example/service/MatchService.java:111-122 | One Player row and one MatchPlayer row are appended per roster name. The k-th new MatchPlayer links the new match to the k-th new Player. |
| IngestLemmas.TeamsStepPlayerRows | src/main/java/org/example/service/MatchService.java:105-123 | The teams loop only appends to Player and MatchPlayer, equally many rows to each. Every new link goes from the match to the player at the same offset. |
| IngestLemmas.TeamsStepShape | src/main/java/org/example/service/MatchService.java:105-123 | The teams loop changes only Team, Player and MatchPlayer. It adds one Team per team entry and one Player per roster name. |
| IngestLemmas.PlayersStepRows | src/main/java/org/example/service/MatchService.java:112-122 | A roster adds exactly its names as Player rows with score 0, each followed by its MatchPlayer link. Nothing else changes. |
| MatchService.SaveTeamsAndPlayers | src/main/java/org/example/service/MatchService.java:103-123 | The loop leaves the store equal to `TeamsStep` of the old one. The HashSet holds exactly the Team rows it added. |
| MatchService.SaveRoster | src/main/java/org/example/service/MatchService.java:112-122 | The players loop leaves the store equal to `PlayersStep` of the old one. |
| MatchService.SaveMatchTeams | src/main/java/org/example/service/MatchService.java:125-131 | The old MatchTeam rows are kept. One row per team of the set is appended, each linking the new match to that team, and nothing more. |
| IngestLemmas.AddedMatchTeamsValid | src/main/java/org/example/service/MatchService.java:125-131 | MatchTeam rows that link the match to saved teams keep the tables `Valid`. |
| IngestSpec.ResolvedTeam | src/main/java/org/example/service/MatchService.java:139-154 | The inning gets a team exactly when `findByName` over all Team rows finds exactly one row, and then it gets that row's id. |
| IngestLemmas.InningStepRows | src/main/java/org/example/service/MatchService.java:134-241 | An innings entry adds an Inning row exactly when its team resolved or it has at least one over. It adds none when neither holds. The row has the next id, and it has a team exactly when the name resolved. One Over row is added per over entry, linked to that inning, whether or not the inning was saved directly. The Delivery, Powerplay and Target counts are stated too. |
| MatchService.SaveInningEntry | src/main/java/org/example/service/MatchService.java:134-241 | One iteration of the innings loop leaves the store equal to `InningStep` of the old one. |
| MatchService.SaveInningEntries | src/main/java/org/example/service/MatchService.java:134-242 | The innings loop leaves the store equal to `InningsStep` of the old one. |
| MatchService.SaveOverEntries | src/main/java/org/example/service/MatchService.java:167-241 | The overs loop leaves the store equal to `OversStep`. For an unsaved inning: with no overs nothing changes; otherwise the inning row is written first, by cascade, with the next inning id. |
| MatchService.SaveOverEntry | src/main/java/org/example/service/MatchService.java:167-241 | One over entry: when its inning is unsaved, the inning row is persisted first with the next id. Then come the over's rows. |
| MatchService.SaveOverRows | src/main/java/org/example/service/MatchService.java:168-240 | The rows of one over are its Over row, its deliveries, every powerplay of the inning and the target, and they equal `OverStep`. |
| MatchService.SaveOverRow | src/main/java/org/example/service/MatchService.java:168-171 | One Over row is appended with the next over id, linked to the inning, with `asInt` of `over`. |
| IngestLemmas.OverStepRows | src/main/java/org/example/service/MatchService.java:167-241 | One over adds one Over row and one Delivery per delivery entry. It adds every powerplay of the inning and one Target when the inning has `target`, all linked to this over, inning and match. |
| IngestLemmas.OversStepShape | src/main/java/org/example/service/MatchService.java:167-241 | For an inning with n overs, exactly n times its powerplay count Powerplay rows are added, and n Target rows when it has a target. An inning with no overs therefore gets neither. |
| IngestLemmas.OversStepLinks | src/main/java/org/example/service/MatchService.java:167-241 | Every row that the overs loop adds is linked to this inning. Every new Delivery points at one of the new overs and at this match. |
| IngestLemmas.InningsStepRows | src/main/java/org/example/service/MatchService.java:134-242 | Over, Delivery, Powerplay and Target rows added by the innings loop are counted as sums over the innings entries. Only the inning tables change. |
| IngestLemmas.IngestCounts | src/main/java/org/example/service/MatchService.java:134-242 | Over, Delivery, Powerplay and Target rows added by a whole upload are counted as sums over the innings entries. |
| MatchService.SaveDeliveryEntries | src/main/java/org/example/service/MatchService.java:173-224 | The deliveries loop appends exactly `DeliveriesOf` the entries, in order. |
| MatchService.SaveDeliveryEntry | src/main/java/org/example/service/MatchService.java:173-223 | One delivery entry appends exactly the row `DeliveryOf` that entry. |
| MatchService.NewDeliveryEntity | src/main/java/org/example/service/MatchService.java:174-220 | The over, inning and match links are all set, so the three IllegalStateException checks never fire. Names and run fields are copied, and extras goes through `setExtras`. |
| IngestLemmas.DeliveriesOfLinks | src/main/java/org/example/service/MatchService.java:174-177 | Every Delivery of an over carries that over, inning and match. |
| JsonTree.AsInt | src/main/java/org/example/service/MatchService.java:198-201 | `asInt` is a 32-bit value. It is 0 for a missing, null, array or object node, so absent run fields default to 0. |
| JsonTree.AsText | src/main/java/org/example/service/MatchService.java:193-195 | `asText` of a string node is its text. It is empty for a missing, array or object node. |
| JsonTree.AsBoolean | src/main/java/org/example/service/MatchService.java:158 | `asBoolean` is a boolean node's value. It is false for a missing, null, array or object node. |
| JsonTree.TextOfNumberReadsBack | src/main/java/org/example/service/MatchService.java:212-213 | An int rendered as text and read back with `asInt` gives the same int. |
| JsonTree.OverflowingTextReadsZero | src/main/java/org/example/service/MatchService.java:198-201 | Digit text for a value outside the int range reads through `asInt` as the default 0, as `Integer.parseInt` fails and Jackson falls back to the default. It is not clamped to a bound. So `"runs": {"batter": "3000000000"}` stores 0 runs. |
| MatchService.BuildExtras | src/main/java/org/example/service/MatchService.java:204-219 | The StringBuilder ends as `ExtrasText`. That is `{}` for a missing or empty node; otherwise the `name: value` entries are joined by `, `, with the trailing separator cut. |
| IngestLemmas.TerminatedIsJoinThenSep | src/main/java/org/example/service/MatchService.java:211-218 | Appending each entry followed by `, ` and cutting the last two characters leaves the entries joined by `, `. |
| IngestLemmas.ExtrasTextStartsWithFirstName | src/main/java/org/example/service/MatchService.java:210-218 | The extras text of a non-empty object begins with its first field name followed by `:`. |
| IngestLemmas.ExtrasOfNamedFieldsAreDropped | src/main/java/org/example/service/MatchService.java:204-220 | Take a validator that rejects text starting with a letter unless it starts with `true`, `false` or `null`, as Jackson's `readTree` does. Take an extras object whose first field name starts with a letter and not with one of those words, such as `wides`, `noballs`, `byes`, `legbyes` or `penalty`. Then the stored extras is `{}`. |
| IngestLemmas.IngestValid | src/main/java/org/example/service/MatchService.java:57-243 | The walk keeps the tables `Valid`: ids stay positions and every link points at an existing row. |
| IngestLemmas.InningsStepValid | src/main/java/org/example/service/MatchService.java:134-242 | The innings loop keeps the tables `Valid`. That includes the cascade-saved innings and the overs of each. |
| IngestLemmas.InningStepValid | src/main/java/org/example/service/MatchService.java:134-241 | One innings entry keeps the tables `Valid`. |
| IngestLemmas.OversStepValid | src/main/java/org/example/service/MatchService.java:167-241 | The overs of a stored inning keep the tables `Valid`. |
| IngestLemmas.TeamsStepValid | src/main/java/org/example/service/MatchService.java:105-123 | The teams loop keeps the tables `Valid`. |
| IngestLemmas.PlayersStepValid | src/main/java/org/example/service/MatchService.java:112-122 | The players loop keeps the tables `Valid`. |
| IngestLemmas.IngestWithMatchTeamsValid | src/main/java/org/example/service/MatchService.java:57-243 | The whole upload, MatchTeam rows included, keeps the tables `Valid`. |
| DeliveryEntity.Delivery.SetExtras | src/main/java/org/example/entity/Delivery.java:51-58 | Only `extras` changes, to `StoredExtras` of the argument: the argument when it is valid JSON, `{}` otherwise. |
| DeliveryEntity.StoredExtras | src/main/java/org/example/entity/Delivery.java:51-58 | The stored text is the argument or `{}`. It is the argument whenever that is valid, and `{}` whenever it is not. |
| DeliveryEntity.StoredExtrasIsValid | src/main/java/org/example/entity/Delivery.java:51-69 | If `{}` is valid JSON, whatever `setExtras` stores is valid JSON. |
| DeliveryEntity.StoredExtrasIdempotent | src/main/java/org/example/entity/Delivery.java:51-58 | `setExtras(getExtras())` changes nothing. |
| DeliveryEntity.Delivery.constructor | src/main/java/org/example/entity/Delivery.java:17-27 | A new Delivery has none of its three links, which are NOT NULL columns. `Record` can only be taken once all three are set. |
| MatchRepository.FindMatchesByPlayerNameMembers | src/main/java/org/example/repository/MatchRepository.java:13-17 | A match is returned exactly when it is stored and a MatchPlayer row links it to a Player row named exactly that name. |
| MatchRepository.FindMatchesByPlayerNameCount | src/main/java/org/example/repository/MatchRepository.java:13-17 | There is no DISTINCT. A match occurs as often as its copies in the table times the number of (MatchPlayer, Player) pairs joining it to that name. |
| MatchRepository.JoinedMatchesCount | src/main/java/org/example/repository/MatchRepository.java:13-17 | The same multiplicity holds for the join over any list of Match rows. |
| MatchRepository.JoinHits | src/main/java/org/example/repository/MatchRepository.java:14-16 | The join count is positive exactly when some MatchPlayer row of the match points at a Player row with that name. |
| MatchRepository.UnknownPlayerFindsNoMatch | src/main/java/org/example/repository/MatchRepository.java:13-17 | A name that no Player row carries finds nothing. |
| MatchRepository.FindMatchesByDateMembers | src/main/java/org/example/repository/MatchRepository.java:21-22 | Exactly the stored matches of that date are returned, each as often as it is stored. A match without a date is never returned. |
| MatchRepository.MatchesOn | src/main/java/org/example/repository/MatchRepository.java:21-22 | Every result has the date, and the result counts match the table's counts for that date. |
| MatchRepository.ScoresOf | src/main/java/org/example/repository/MatchRepository.java:25-26 | A value is returned exactly when some Inning row of the match has that totalRuns. The result is empty exactly when the match has no inning, and it is never longer than the Inning table. |
| MatchRepository.ScoresOfInnings | src/main/java/org/example/repository/MatchRepository.java:25-26 | The scores are the totalRuns of the match's Inning rows, one per row, in table order. |
| PlayerRepository.SortedByScore | src/main/java/org/example/repository/PlayerRepository.java:13 | ORDER BY totalScore DESC gives a permutation of the Player table with non-increasing scores. |
| PlayerRepository.InsertByScoreRanked | src/main/java/org/example/repository/PlayerRepository.java:13 | Inserting a player into a ranking keeps it a ranking. |
| PlayerRepository.InsertByScore | src/main/java/org/example/repository/PlayerRepository.java:13 | Insertion adds exactly the one player: the multiset gains it and the length grows by one. |
| PlayerRepository.TopBatsmenPageRows | src/main/java/org/example/repository/PlayerRepository.java:13-14 | The total is the number of Player rows. A page has min(pageSize, remaining) rows, or none past the end. They are the ranked rows starting at the page's offset. |
| PlayerRepository.TopBatsmenPageRanked | src/main/java/org/example/repository/PlayerRepository.java:13-14 | A page is in non-increasing score order and holds only stored players. |
| PlayerRepository.EarlierPagesScoreHigher | src/main/java/org/example/repository/PlayerRepository.java:13-14 | Every player of an earlier page scores at least as much as every player of a later page. |
| PlayerRepository.RankedPlayerIsOnItsPage | src/main/java/org/example/repository/PlayerRepository.java:13-14 | The i-th ranked player is on page i / pageSize, at position i % pageSize. |
| PlayerRepository.LaterPageStartsAfter | src/main/java/org/example/repository/PlayerRepository.java:13-14 | Pages do not overlap: a later page starts at or after the end of an earlier one. |
| PlayerRepository.PageOffsetIsProduct | src/main/java/org/example/repository/PlayerRepository.java:13-14 | The offset of a page is pageNumber × pageSize. |
| PlayerRepository.FindByName | src/main/java/org/example/repository/PlayerRepository.java:17 | The result is a stored player with exactly that name. It is null (None) exactly when no row has the name. |
| PlayerRepository.FindPlayerByNameIsFindByName | src/main/java/org/example/repository/PlayerRepository.java:17-21 | The JPQL query and the derived query select the same player. |
| QueryService.CumulativeScore | src/main/java/org/example/service/QueryService.java:44-53 | The score is 0 when no player has the name. Otherwise it is the totalScore of a player with that name. |
| QueryService.CumulativeScoreOfOnlyPlayer | src/main/java/org/example/service/QueryService.java:44-53 | When one Player row carries the name, the score is that row's totalScore. |
| QueryService.TopBatsmenKeyInjective | src/main/java/org/example/service/QueryService.java:75 | Two pageables share a `topBatsmen` key exactly when their number and size are equal. |
| QueryService.ScoresOnDateEntries | src/main/java/org/example/service/QueryService.java:64-72 | The keys are exactly the ids of the stored matches of that date. Each value is `findScoresByMatchId` of its id: exactly the totalRuns of that match's innings. |
| QueryService.ScoresOfMatchesEntries | src/main/java/org/example/service/QueryService.java:66-71 | The loop's map has exactly the ids of the listed matches as keys, each mapped to its scores. |
| QueryService.QueryService.GetMatchesByPlayerName | src/main/java/org/example/service/QueryService.java:37-40 | On a hit the cached value is returned, with no query and the cache unchanged. On a miss the repository result is returned, stored under the key, with one query. A coherent cache stays coherent, and the result equals the repository's. The store is not written. |
| QueryService.QueryService.GetCumulativeScoreByPlayerName | src/main/java/org/example/service/QueryService.java:43-53 | The same hit and miss behaviour, for the found player's totalScore or 0. |
| QueryService.QueryService.GetMatchesByDate | src/main/java/org/example/service/QueryService.java:57-60 | The same hit and miss behaviour, for `findMatchesByDate`. |
| QueryService.QueryService.GetScoresByDate | src/main/java/org/example/service/QueryService.java:63-72 | On a miss, the matches of the date are read from the store, bypassing the `matchesByDate` cache. Then one score query per match, so 1 + n queries in all. The loop's map equals `ScoresOnDate`. Only the `scoresByDate` entry is added. |
| QueryService.CoherentTopBatsmenHit | src/main/java/org/example/service/QueryService.java:75-78 | In a coherent cache, the `topBatsmen` entry stored under `pageNumber-pageSize` is exactly that page of the ranking. |
| QueryService.QueryService.GetTopBatsmen | src/main/java/org/example/service/QueryService.java:75-78 | The same hit and miss behaviour under the key `pageNumber-pageSize`. A hit on a coherent cache returns exactly the requested page. |
| QueryService.QueryService.ClearCache | src/main/java/org/example/service/QueryService.java:86-89 | Only the `matchesByPlayerName` entry of that name is removed, and coherence is kept. |
| QueryService.QueryService.ClearAllCaches | src/main/java/org/example/service/QueryService.java:91-94 | All five caches are empty afterwards. |
| QueryService.QueryService.constructor | src/main/java/org/example/service/QueryService.java:22-34 | The service starts with empty caches over the given store. |
| MatchController.UploadJsonData | src/main/java/org/example/controller/MatchController.java:25-51 | A null or empty body gets 400 `JSON content cannot be null or empty`, with store and caches untouched. An IOException from the save gets 500 `Failed to process the JSON data: ` plus the message, with store and caches untouched. On success every table except MatchTeam is `Ingest` of the old tables, and MatchTeam gains exactly one row linking the new match to each new Team row, in an unspecified order; the caches are empty afterwards (cleared only after the save returned) and the response is 200. Coherence and `Valid` are preserved. |
| MatchController.ResponseForRoundTrip | src/main/java/org/example/controller/MatchController.java:36-50 | Each ending of the save (normal, IOException, other exception) can be read back from its response, message included. |
| MatchController.ResponseForDistinguishes | src/main/java/org/example/controller/MatchController.java:36-50 | Only a normal return answers 200, and different endings never share a response. |
| Store.TeamsNamed | src/main/java/org/example/service/MatchService.java:140 | `findByName` on Team returns exactly the Team rows, of any upload, with that exact name. |
| Text.ParseIntRoundTrip | src/main/java/org/example/service/MatchService.java:212-213 | The decimal text of an int parses back to it, which is how `asInt` reads a number written as text. |

## Left out

- Jackson, `isValidJson`'s parser and the two date parsers are parameters (the `Codec` fields). Nothing is assumed about them beyond what a lemma's `requires` states.
- Duplicate keys in a JSON object are not modelled: the first field of a name wins.
- Fractional numbers are not modelled: `JNum` is integral.
- JsonTree.AsInt: does not model `asInt` on text that is not an optionally signed run of digits, for example `"3.7"` or `"1e3"`. Jackson reads such text with a double parse and an `(int)` cast, which saturates at the int bounds. The model gives 0, which is right only when that parse fails.
- PlayerRepository.FindByName: returns the first row when several players share a name, where Spring would throw `IncorrectResultSizeDataAccessException`.
- `Player.java`, `Match.java` and `MatchPlayer.java` are not part of this model. Their fields are those set in `MatchService.java`, and `totalScore` is taken as a non-null int that starts at 0.
- MatchService.SaveMatchTeams: the `HashSet` iteration order is not modelled, so the order of the new MatchTeam rows is left open; the set of rows is exact.
- `@GeneratedValue(IDENTITY)` ids are modelled as the row's position in its table.
- `@Transactional` rollback is not modelled: no persistence exception is modelled, so the only failure (a parse error) happens before any write. For the same reason the controller's "unexpected error" outcome cannot arise from the modelled save, although `MatchController.ResponseFor` answers it.
- The order of JPQL results without ORDER BY is unspecified. The model lists rows in table order, and the match-query contracts speak of membership and counts.
- PlayerRepository.SortedByScore: players with equal scores keep table order; the SQL order among ties is unspecified.
- The Redis cache configuration, its 60-minute TTL and its serializers are not modelled; entries never expire.
- Spring's proxy-based caching is modelled only as far as `getScoresByDate`'s self-call, which bypasses the `matchesByDate` cache.
- `QueryController`, its Kafka mirror and `DeliveryRepository.findCumulativeScoreByPlayerName` are outside the modelled core.
- Logging, `System.out.println`, the HTTP layer and concurrency between uploads and queries are not modelled.
- QueryService.QueryService.GetCumulativeScoreByPlayerName: a null `totalScore` is not modelled, because `Player.java` is not part of this model.

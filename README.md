# Goal chord data mapper, modelled in Dafny

The data mapper reads a hockey team's goal score sheet. The sheet is one row per
goal: the scorer `G`, up to two assists `A1` and `A2`, and the game's `Date` and
`Opponent`. The mapper turns the sheet into these outputs:

- a player-by-player connection matrix, which a chord diagram draws;
- each player's goal and point counts, with their shares of all goals;
- the tooltip texts shown for a player, for a chord, and for the date of the
  latest goal.

The model has one module per concern:

| file | module | what it holds |
|---|---|---|
| `wrappers.dfy` | `Wrappers` | `Option` and `Result` |
| `score_sheet.dfy` | `ScoreSheet` | Rows, slots and names. The collected player list, in order of first appearance. The goal, point and pair counts, as functions over the rows. |
| `shares.dfy` | `Shares` | A share as JavaScript computes it: `count / count` is a `Fraction`, `NaN` or `Infinity`. The `|| 0` guard. A two-decimal percentage text. |
| `entries.dfy` | `Entries` | One `playerMap` entry, its zeroed `connections` object, the `++` on a key, and `collectPlayerInfo`. |
| `connections.dfy` | `ConnectionCounts` | The production counting rule (`collectAllConnections`) and the unused scorer–assist rule (`collectScoreAssistConnections`). Each is a loop proved against a per-row weight summed over the rows. Their lemmas are here too. |
| `player_maps.dfy` | `PlayerMaps` | The map `buildPlayerMap` builds and the matrix `reduceMapToArray` reads off it, with what they say about the sheet. It also holds the as-written rebuild of the map (see Findings). |
| `tooltips.dfy` | `Tooltips` | `collectChordInfo` and the texts of `setPlayerInfo`, `setChordInfo` and `lastUpdate`. |
| `data_mapper.dfy` | `DataMappers` | The module's closure state as a class `DataMapper` with the fields `dataSource`, `playerMap` and `totalGoalCount`. Its public functions are methods; `buildPlayerMap`'s loops are methods too. |

How JavaScript values are modelled:

- A slot is `Option<Name>`, where `Name` is a non-empty string. `None` stands for
  every falsy value the CSV can produce: an empty field or a missing one.
- A `connections` object is a `map<Name, nat>` plus the sequence of its keys in
  insertion order (`PlayerEntry.columns`), which is the order
  `reduceMapToArray` reads the counts in.
- `dataSource` is `Option<seq<GoalRow>>`; `None` stands for `null`.
- The exception `getPlayerMatrix` throws is the `Err` of a `Result`.

## Model

| member | source | states |
|---|---|---|
| ScoreSheet.Flatten | assets/js/dataMapper.js:18-22 | The flattened sheet has three slots per row: slots 3i, 3i+1 and 3i+2 hold row i's G, A1 and A2. |
| ScoreSheet.FirstAppearances | assets/js/dataMapper.js:22 | The result holds a name exactly when some slot holds it, and it holds no name twice. This is `_.compact(_.uniq(...))`. |
| ScoreSheet.FirstAppearancesInOrder | assets/js/dataMapper.js:22 | The names come out ordered by the position where each first occurs among the slots. |
| ScoreSheet.CollectPlayers | assets/js/dataMapper.js:15-23 | The collected players contain no repeats. |
| ScoreSheet.FlattenNames | assets/js/dataMapper.js:18-22 | A name is in some flattened `[G, A1, A2]` slot exactly when it has at least one point. |
| ScoreSheet.CollectPlayersArePointGetters | assets/js/dataMapper.js:15-23 | A name is collected exactly when some row credits it in G, A1 or A2. |
| ScoreSheet.CollectPlayersInOrder | assets/js/dataMapper.js:15-23 | The collected players are in order of first appearance across the rows' slots. |
| ScoreSheet.Goals | assets/js/dataMapper.js:152 | A player's goal count never exceeds the player's point count. |
| ScoreSheet.Points | assets/js/dataMapper.js:153-155 | A player's point count never exceeds the number of rows. |
| ScoreSheet.UnassistedGoals | assets/js/dataMapper.js:75 | The unassisted goals are at most the player's goals. |
| ScoreSheet.SourceTargetConnections | assets/js/dataMapper.js:168-180 | The pair counter is at most the points of each of the two players. |
| ScoreSheet.ScorerAssisterGoals | assets/js/dataMapper.js:29-33 | Scorer–assister goals of a pair are among the goals that credit both. |
| ScoreSheet.BothAssisted | assets/js/dataMapper.js:161-166 | Goals both players assisted are among the goals that credit both. |
| ScoreSheet.SourceTargetSelf | assets/js/dataMapper.js:168-180 | The pair counter with one player as both source and target gives that player's points. |
| ScoreSheet.SourceTargetSymmetric | assets/js/dataMapper.js:168-180 | The pair counter does not depend on which player is the source. |
| Shares.Divide | assets/js/dataMapper.js:195-196 | JavaScript division of two counts: NaN exactly for 0/0, Infinity exactly for a positive count over 0, otherwise the exact fraction. |
| Shares.OrZero | assets/js/dataMapper.js:195-196 | `|| 0` never leaves NaN. It turns NaN into 0 and keeps every other value. |
| Shares.GuardedShare | assets/js/dataMapper.js:195-196 | A share guarded with `|| 0` is never NaN. It is `num/den` for a positive denominator and 0 for 0/0. It is Infinity exactly when a positive count meets a zero point total. |
| Shares.Hundredths | assets/js/dataMapper.js:10 | The share in hundredths of a percent is the nearest whole number, halves rounded up. |
| Shares.HundredthsOfPart | assets/js/dataMapper.js:10 | A share of at most one whole is at most 100.00%. |
| Shares.NatToString | assets/js/dataMapper.js:258-259 | A count joined into text is a non-empty string of decimal digits. |
| Shares.NatToStringRoundTrip | assets/js/dataMapper.js:258-259 | Reading those digits back gives the count. |
| Shares.Percentage | assets/js/dataMapper.js:10 | A formatted share is non-empty and ends in `%`. |
| Entries.ZeroConnections | assets/js/dataMapper.js:116-118 | The zeroed object has exactly the collected players as keys, each with count 0. |
| Entries.FreshEntry | assets/js/dataMapper.js:110-118 | A fresh entry is named after its player. Every collected player is one of its columns and has a count. |
| Entries.Bump | assets/js/dataMapper.js:79 | `connections[k]++` adds 1 to k's count and changes no other count and no key. |
| Entries.CollectPlayerInfo | assets/js/dataMapper.js:151-158 | Adding the statistics keeps the name and the connections. It gives goals ≤ points ≤ the number of rows. |
| ConnectionCounts.SlotCount | assets/js/dataMapper.js:84-87 | A name fills some slot of a row exactly when the row credits it. When no name repeats in the row, it fills at most one slot. |
| ConnectionCounts.Without | assets/js/dataMapper.js:84 | `_.without(s, p)` keeps every element of s except every copy of p. This is stated on multisets. |
| ConnectionCounts.IncrementEach | assets/js/dataMapper.js:85-87 | Each count grows by the number of slots in `others` that hold its key. No key is added. |
| ConnectionCounts.OthersWeight | assets/js/dataMapper.js:84-87 | For a credited player on an assisted goal, the other point-getters are exactly that row's weight towards each name. |
| ConnectionCounts.CountGoal | assets/js/dataMapper.js:73-88 | One goal adds its weight under the production rule to each of the player's counts. |
| ConnectionCounts.CollectAllConnections | assets/js/dataMapper.js:70-92 | The loop over the rows adds the production rule's count over all rows to each existing count. It changes nothing else in the entry. |
| ConnectionCounts.CollectScoreAssistConnections | assets/js/dataMapper.js:37-63 | The same as above, under the scorer–assist rule. |
| ConnectionCounts.CountScoreAssistGoal | assets/js/dataMapper.js:40-58 | One goal adds its weight under the scorer–assist rule to each of the player's counts. |
| ConnectionCounts.RowWeight | assets/js/dataMapper.js:75-87 | A goal's effect on one count under the production rule. On the diagonal it adds 1 exactly for the player's unassisted goal. Off the diagonal it adds something exactly when the goal credits both players, and never more than 2. |
| ConnectionCounts.Connections | assets/js/dataMapper.js:70-92 | A player's count towards anyone under the production rule is at most twice the player's points. |
| ConnectionCounts.ScoreAssistWeight | assets/js/dataMapper.js:42-57 | A goal's effect on one count under the scorer–assist rule. Only a credited player gains. Towards another player it adds something exactly when one of the two scored and the other assisted, and never more than 2. |
| ConnectionCounts.ScoreAssistConnections | assets/js/dataMapper.js:37-63 | A player's count under the scorer–assist rule is at most twice the player's points. |
| ConnectionCounts.ConnectionsDiagonal | assets/js/dataMapper.js:75-79 | A player's diagonal entry counts exactly the goals the player scored without assistance. |
| ConnectionCounts.UnassistedGoalAdds | assets/js/dataMapper.js:75-79 | An unassisted goal adds exactly 1 to its scorer's diagonal entry and changes no other count. |
| ConnectionCounts.AssistedGoalAdds | assets/js/dataMapper.js:80-88 | An assisted goal adds to a credited player's count towards every other player one per slot that player fills. It changes no diagonal entry and no count of an uncredited player. On a row that names nobody twice, that is 1 for every ordered pair of different players it credits, assist–assist pairs included. |
| ConnectionCounts.ConnectionsBetween | assets/js/dataMapper.js:80-88 | Between two different players, the production rule counts the goals that credit both. This equals the pair counter `collectSourceTargetConnections`. |
| ConnectionCounts.ConnectionsSymmetric | assets/js/dataMapper.js:80-88 | The production rule's counts are symmetric. |
| ConnectionCounts.ScoreAssistBetween | assets/js/dataMapper.js:49-57 | Under the scorer–assist rule, two players are linked once per goal on which one scored and the other assisted. |
| ConnectionCounts.AssistersNotLinked | assets/js/dataMapper.js:29-33 | Under the scorer–assist rule, two assisters of someone else's goal gain nothing towards each other. |
| ConnectionCounts.SharedGoalsSplit | assets/js/dataMapper.js:161-166 | Goals crediting two different players split into scorer–assister goals and goals both assisted. |
| ConnectionCounts.RulesDifferByAssistPairs | assets/js/dataMapper.js:66-68 | The production rule's count equals the scorer–assist count plus the goals both players assisted. |
| ConnectionCounts.ScoreAssistDiagonal | assets/js/dataMapper.js:42-46 | Under the scorer–assist rule, the diagonal also counts exactly the unassisted goals. |
| ConnectionCounts.ThreeGoalExample | assets/js/dataMapper.js:70-92 | A worked case: A alone, then B from A, then A from B and C. It gives A–A 1, A–B 2, A–C 1, B–C 1, and 0 on the other diagonals. |
| PlayerMaps.CountedEntry | assets/js/dataMapper.js:121-123 | A counted entry keeps its player's name and columns, and every column has a count. |
| PlayerMaps.CompletedEntry | assets/js/dataMapper.js:125-127 | The same, after the statistics are added. |
| PlayerMaps.PlayerMapFor | assets/js/dataMapper.js:105-128 | The map has one well-formed entry per collected player. |
| PlayerMaps.RowOf | assets/js/dataMapper.js:137-141 | A matrix row lists the entry's counts in column order. |
| PlayerMaps.MatrixOf | assets/js/dataMapper.js:133-145 | The matrix has one row per entry, in index order. |
| PlayerMaps.PlayerMatrixEntries | assets/js/dataMapper.js:105-145 | The matrix is square, with one row and one column per collected player. Row i belongs to `playerMap[i].name`. Entry (i, j) is player i's count towards player j. |
| PlayerMaps.PlayerMatrixSymmetric | assets/js/dataMapper.js:80-88 | The matrix is symmetric. |
| PlayerMaps.PlayerMatrixCounts | assets/js/dataMapper.js:75-88 | The diagonal holds each player's unassisted goals. Off the diagonal, an entry counts the goals that credit both players. |
| PlayerMaps.PlayerMapStatistics | assets/js/dataMapper.js:151-158 | Each entry's goals are the rows it scored and its points the rows that credit it. Every player has at least one point, and goals ≤ points ≤ the total. The shares are those counts over the total. |
| PlayerMaps.PlayerMapAsWritten | assets/js/dataMapper.js:109-119 | Rebuilding in place leaves the larger of the old map's size and the new player count. |
| PlayerMaps.AsWrittenMatchesWithoutStaleEntries | assets/js/dataMapper.js:240-247 | With no more old entries than new players, the as-written rebuild gives the intended map. Rebuilding again on the same source gives the same map. |
| PlayerMaps.AsWrittenKeepsStaleEntries | assets/js/dataMapper.js:109-123 | With more old entries than new players, the old entries past the new players survive. |
| PlayerMaps.AsWrittenRecountsStaleEntries | assets/js/dataMapper.js:121-127 | A stale entry keeps its name and is counted again: each of its counts grows by its player's count over the current rows. |
| PlayerMaps.AsWrittenRepeatedCallsDiffer | assets/js/dataMapper.js:240-247 | Once a stale entry's player has an unassisted goal in the current rows, calling again on the same source gives a different map. |
| PlayerMaps.StaleEntryExample | assets/js/dataMapper.js:109-123 | A source naming two players, then a source naming one, leaves a map of two entries where one is intended. |
| Tooltips.Noun | assets/js/dataMapper.js:255-256 | The word is singular exactly when the count is 1; otherwise it is the plural. |
| Tooltips.PlayerInfoText | assets/js/dataMapper.js:255-273 | The player text of lines 258-271 joined; it ends in " of goals)". |
| Tooltips.PlayerInfoGoalWording | assets/js/dataMapper.js:253-274 | The player text opens with the goal count. " goal " follows exactly when the count is 1, and " goals" exactly otherwise. |
| Tooltips.CollectChordInfo | assets/js/dataMapper.js:186-217 | The unassisted form is chosen exactly when both ends name the same player. Each share is guarded, so never NaN. Over a positive point total, each share is the chord's weight over that player's points: the target's points for `toTarget`, the source's for `toSource`. |
| Tooltips.ChordText | assets/js/dataMapper.js:280-303 | The self-chord text starts with the name and ends with " of his points without assistance.". The pair text starts with the source's name and " scored " and ends with " of his points with " and the source's name. |
| Tooltips.ChordInfoOnPlayerMap | assets/js/dataMapper.js:186-216 | On the built map, a chord gets the unassisted description exactly when both ends are the same player. Each share is the chord's weight over the respective player's point total, which is positive. |
| Tooltips.LastUpdateText | assets/js/dataMapper.js:230-234 | The text begins with the last row's date and ends with its opponent. |
| DataMappers.DataMapper.constructor | assets/js/dataMapper.js:7-9 | The mapper starts with no source, an empty map and a total of 0. |
| DataMappers.DataMapper.SetSource | assets/js/dataMapper.js:225-228 | Stores the rows and sets the total to their number. The map is untouched. |
| DataMappers.DataMapper.LastUpdate | assets/js/dataMapper.js:230-234 | Returns the last row's update text. |
| DataMappers.DataMapper.GetTotalGoalCount | assets/js/dataMapper.js:236-238 | Returns the source's row count, or 0 before a source is set. |
| DataMappers.DataMapper.GetPlayerMatrix | assets/js/dataMapper.js:240-247 | Fails with the "must be set" message and leaves the map when no source was set. Otherwise it rebuilds the map for the source and returns its matrix; an empty source gives an empty matrix. |
| DataMappers.DataMapper.BuildPlayerMap | assets/js/dataMapper.js:105-128 | The map becomes exactly the map for the current source; source and total are unchanged. |
| DataMappers.DataMapper.ReduceMapToArray | assets/js/dataMapper.js:133-145 | Returns each entry's counts in column order, entry by entry. |
| DataMappers.DataMapper.GetPlayerName | assets/js/dataMapper.js:249-251 | Returns the name of the entry at the index. |
| DataMappers.DataMapper.SetPlayerInfo | assets/js/dataMapper.js:253-274 | Returns the player text of the entry at the index, with the singular/plural wording above. |
| DataMappers.DataMapper.SetChordInfo | assets/js/dataMapper.js:276-304 | Returns the chord text for the chord's summary. |
| DataMappers.FreshEntries | assets/js/dataMapper.js:109-119 | Entry i is a fresh, zeroed entry for the i-th collected player. |
| DataMappers.ZeroedEntry | assets/js/dataMapper.js:110-118 | The inner loop gives the fresh entry: every collected player is a key with count 0. |
| DataMappers.CountEachConnections | assets/js/dataMapper.js:123 | Running the production rule on each fresh entry gives each player's counted entry. |
| DataMappers.CollectEachPlayerInfo | assets/js/dataMapper.js:127 | Adding statistics to each counted entry gives each player's completed entry. |

## Left out

- `assets/js/dataVisualizer.js`, `assets/js/main.js` and `Gruntfile.js` are not
  part of this model. They hold drawing, network fetching, DOM writes and build
  configuration.
- Entries.Bump: a `++` on a key the object lacks is a no-op here. In the source,
  a falsy slot reaching `connections[other]++` (line 86, or line 52 when `A1` is
  empty) creates a key `""` or `"undefined"` whose value is NaN. That key then
  appears as an extra, last column of the player's matrix row. The model states
  every property over the real players' columns only.
- ConnectionCounts.CollectScoreAssistConnections and CountScoreAssistGoal guard
  the `A1` increment on `A1` being present, where line 52 increments
  unconditionally. They also guard the `G` increment on `G` being present, where
  line 56 increments unconditionally. The difference is the same spurious NaN key
  as above.
- Key order of `connections`: JavaScript enumerates integer-like keys first, in
  ascending order. The model keeps insertion order, which is what the source
  relies on for names that are not integer-like.
- Shares.Percentage: `d3.format(".2%")` works on floating-point values. The
  model divides exactly and rounds halves up. The texts for NaN and Infinity are
  the model's own choice.
- DataMappers.DataMapper.LastUpdate requires a non-empty source. On an empty or
  missing source, the source dereferences `undefined` and throws a TypeError;
  that error path is not modelled.
- DataMappers.DataMapper.GetPlayerName, SetPlayerInfo and SetChordInfo require
  indices within the map. The source throws a TypeError on any other index.
- ConnectionCounts.ConnectionsBetween, ConnectionsSymmetric, ScoreAssistBetween,
  SharedGoalsSplit, RulesDifferByAssistPairs, ScoreAssistDiagonal,
  PlayerMaps.PlayerMatrixSymmetric and PlayerMatrixCounts require that no name
  fills two slots of one row. With a repeated name, `_.without` removes every
  copy, so the counts are no longer symmetric.
- `getPlayerMatrix` rebuilds the map on every call; nothing is cached.
- `|| 0` turns only 0/0 into 0. A positive weight over a zero point total stays
  Infinity (`Shares.GuardedShare`). On the map built from a source this cannot
  happen, because every collected player has a point
  (`Tooltips.ChordInfoOnPlayerMap`).
- A goal share over a zero total is NaN. On an empty source there are no
  players, so no entry carries such a share.
- `collectPlayerInfo` assigns the entry's fields in place. The model computes
  the new entry as a value, and `DataMappers.CollectEachPlayerInfo` stores it at
  its index.
- The percentage strings are stored in the entry in the source. The model
  stores the exact share and formats it when the text is built, which gives the
  same text.

## Findings

| source | as written | input that shows it | evidently intended | confidence | as-written member | corrected member |
|---|---|---|---|---|---|---|
| assets/js/dataMapper.js:109-123 | `buildPlayerMap` overwrites only the entries `0..n-1` of the module-level `playerMap`. It then counts every entry the object holds. | Call `setSource` with a sheet naming Crosby and Malkin, then `getPlayerMatrix`. Then call `setSource` with a sheet naming only Crosby, then `getPlayerMatrix`. The second map keeps Malkin's entry at index 1 and the matrix has two rows. A stale entry is also recounted on every call. For example, "A from B" then "B alone" leaves a stale B entry whose diagonal grows by 1 on each later `getPlayerMatrix` call, so repeated calls on one source differ. | The map is rebuilt from scratch for the current source, with one entry per current player. | not executed | PlayerMaps.AsWrittenKeepsStaleEntries | DataMappers.DataMapper.BuildPlayerMap |

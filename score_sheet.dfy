/**
 * The rows of a goal score sheet and the pure queries the data mapper makes of
 * them: the players it collects, and the goal, point and pair counts.
 */
module ScoreSheet {
  import opened Wrappers

  /** A credited player's name. JavaScript treats "" like a missing field, so a
      slot holds either None (missing or empty) or a non-empty name. */
  type Name = s: string | s != "" witness "?"

  /** One CSV row: the scorer G, the assists A1 and A2, and the game it was scored in. */
  datatype GoalRow = GoalRow(G: Option<Name>, A1: Option<Name>, A2: Option<Name>, Date: string, Opponent: string)

  /** The three slots of a row, `[goal.G, goal.A1, goal.A2]`. */
  function PointGetters(row: GoalRow): seq<Option<Name>>
  {
    [row.G, row.A1, row.A2]
  }

  /** p is one of the row's point-getters (`_.contains(pointGetters, p)`). */
  predicate Credited(row: GoalRow, p: Name)
  {
    row.G == Some(p) || row.A1 == Some(p) || row.A2 == Some(p)
  }

  /** p scored the goal and both assist slots are falsy. */
  predicate Unassisted(row: GoalRow, p: Name)
  {
    row.G == Some(p) && row.A1.None? && row.A2.None?
  }

  /** No name fills two slots of the row. */
  predicate DistinctCredits(row: GoalRow)
  {
    (row.G.Some? ==> row.G != row.A1 && row.G != row.A2) && (row.A1.Some? ==> row.A1 != row.A2)
  }

  /** Every row of the sheet credits each player at most once. */
  predicate AllDistinctCredits(rows: seq<GoalRow>)
  {
    forall i :: 0 <= i < |rows| ==> DistinctCredits(rows[i])
  }

  /** The slots of all rows in order, `_.flatten(_.map(rows, row => [G, A1, A2]))`. */
  function Flatten(rows: seq<GoalRow>): (flat: seq<Option<Name>>)
    ensures |flat| == 3 * |rows|
    ensures forall i :: 0 <= i < |rows| ==>
      flat[3 * i] == rows[i].G && flat[3 * i + 1] == rows[i].A1 && flat[3 * i + 2] == rows[i].A2
  {
    if rows == [] then [] else Flatten(rows[..|rows| - 1]) + PointGetters(rows[|rows| - 1])
  }

  /** The position of the first occurrence of x in s. */
  function FirstIndex<T(==)>(s: seq<T>, x: T): (i: nat)
    requires x in s
    ensures i < |s| && s[i] == x && x !in s[..i]
  {
    var init := s[..|s| - 1];
    if x in init then
      var i := FirstIndex(init, x);
      assert s[..i] == init[..i];
      i
    else
      |s| - 1
  }

  /** The names of `flat` without repeats and without falsy slots, in order of
      first appearance (`_.compact(_.uniq(flat))`). */
  function FirstAppearances(flat: seq<Option<Name>>): (players: seq<Name>)
    ensures forall p :: p in players <==> Some(p) in flat
    ensures forall i, j :: 0 <= i < j < |players| ==> players[i] != players[j]
  {
    if flat == [] then []
    else
      var init := flat[..|flat| - 1];
      var rest := FirstAppearances(init);
      assert flat == init + [flat[|flat| - 1]];
      match flat[|flat| - 1]
      case None => rest
      case Some(p) => if Some(p) in init then rest else rest + [p]
  }

  /** `collectPlayers`: every name in a G, A1 or A2 slot, once each, in order of first appearance. */
  function CollectPlayers(rows: seq<GoalRow>): (players: seq<Name>)
    ensures forall i, j :: 0 <= i < j < |players| ==> players[i] != players[j]
  {
    FirstAppearances(Flatten(rows))
  }

  /** The number of rows whose G is p (`_.where(dataSource, {G: name})`). */
  function Goals(rows: seq<GoalRow>, p: Name): (n: nat)
    ensures n <= Points(rows, p)
  {
    if rows == [] then 0
    else Goals(rows[..|rows| - 1], p) + (if rows[|rows| - 1].G == Some(p) then 1 else 0)
  }

  /** The number of rows that credit p in any slot. */
  function Points(rows: seq<GoalRow>, p: Name): (n: nat)
    ensures n <= |rows|
  {
    if rows == [] then 0
    else Points(rows[..|rows| - 1], p) + (if Credited(rows[|rows| - 1], p) then 1 else 0)
  }

  /** The number of goals p scored without an assist. */
  function UnassistedGoals(rows: seq<GoalRow>, p: Name): (n: nat)
    ensures n <= Goals(rows, p)
  {
    if rows == [] then 0
    else UnassistedGoals(rows[..|rows| - 1], p) + (if Unassisted(rows[|rows| - 1], p) then 1 else 0)
  }

  /** `collectSourceTargetConnections`: the number of rows that credit both source and target. */
  function SourceTargetConnections(rows: seq<GoalRow>, source: Name, target: Name): (n: nat)
    ensures n <= Points(rows, source) && n <= Points(rows, target)
  {
    if rows == [] then 0
    else
      var goal := rows[|rows| - 1];
      SourceTargetConnections(rows[..|rows| - 1], source, target)
        + (if Credited(goal, source) && Credited(goal, target) then 1 else 0)
  }

  /** One of a and b scored the goal and the other assisted it. */
  predicate ScorerAndAssister(row: GoalRow, a: Name, b: Name)
  {
    (row.G == Some(a) && (row.A1 == Some(b) || row.A2 == Some(b)))
    || (row.G == Some(b) && (row.A1 == Some(a) || row.A2 == Some(a)))
  }

  /** The number of goals on which one of a and b scored and the other assisted. */
  function ScorerAssisterGoals(rows: seq<GoalRow>, a: Name, b: Name): (n: nat)
    ensures n <= SourceTargetConnections(rows, a, b)
  {
    if rows == [] then 0
    else ScorerAssisterGoals(rows[..|rows| - 1], a, b) + (if ScorerAndAssister(rows[|rows| - 1], a, b) then 1 else 0)
  }

  /** The number of goals on which a and b both assisted. */
  function BothAssisted(rows: seq<GoalRow>, a: Name, b: Name): (n: nat)
    ensures n <= SourceTargetConnections(rows, a, b)
  {
    if rows == [] then 0
    else
      var goal := rows[|rows| - 1];
      BothAssisted(rows[..|rows| - 1], a, b)
        + (if (goal.A1 == Some(a) || goal.A2 == Some(a)) && (goal.A1 == Some(b) || goal.A2 == Some(b)) && goal.G != Some(a) && goal.G != Some(b) then 1 else 0)
  }

  /** A name is in some slot of the flattened sheet exactly when it has a point. */
  lemma {:induction false} FlattenNames(rows: seq<GoalRow>, p: Name)
    ensures Some(p) in Flatten(rows) <==> Points(rows, p) > 0
  {
    if rows != [] {
      FlattenNames(rows[..|rows| - 1], p);
    }
  }

  /** `collectPlayers` returns exactly the players with at least one point. */
  lemma CollectPlayersArePointGetters(rows: seq<GoalRow>, p: Name)
    ensures p in CollectPlayers(rows) <==> Points(rows, p) > 0
  {
    FlattenNames(rows, p);
  }

  /** Each name of `players` occurs in `flat`, and earlier names first occur earlier. */
  predicate InFirstAppearanceOrder(flat: seq<Option<Name>>, players: seq<Name>)
  {
    (forall p :: p in players ==> Some(p) in flat)
    && forall i, j :: 0 <= i < j < |players| ==> FirstIndex(flat, Some(players[i])) < FirstIndex(flat, Some(players[j]))
  }

  /** `_.uniq` keeps first occurrences, so the names come out in the order they first appear. */
  lemma {:induction false} FirstAppearancesInOrder(flat: seq<Option<Name>>)
    ensures InFirstAppearanceOrder(flat, FirstAppearances(flat))
  {
    if flat != [] {
      var init := flat[..|flat| - 1];
      FirstAppearancesInOrder(init);
      var rest := FirstAppearances(init);
      var players := FirstAppearances(flat);
      forall q | q in rest
        ensures FirstIndex(flat, Some(q)) == FirstIndex(init, Some(q)) < |init|
      {
      }
      forall i, j | 0 <= i < j < |players|
        ensures FirstIndex(flat, Some(players[i])) < FirstIndex(flat, Some(players[j]))
      {
        if j < |rest| {
          assert players[i] == rest[i] && players[j] == rest[j];
          assert rest[i] in rest && rest[j] in rest;
        } else {
          var p := players[j];
          assert flat[|flat| - 1] == Some(p) && Some(p) !in init;
          assert players == rest + [p] && players[i] == rest[i] && rest[i] in rest;
          assert FirstIndex(flat, Some(p)) == |init|;
        }
      }
    }
  }

  /** The collected players are ordered by where each first appears in the rows' G, A1, A2 slots. */
  lemma CollectPlayersInOrder(rows: seq<GoalRow>)
    ensures InFirstAppearanceOrder(Flatten(rows), CollectPlayers(rows))
  {
    assert CollectPlayers(rows) == FirstAppearances(Flatten(rows));
    FirstAppearancesInOrder(Flatten(rows));
  }

  /** The pair counter with source and target the same player counts that player's points. */
  lemma {:induction false} SourceTargetSelf(rows: seq<GoalRow>, p: Name)
    ensures SourceTargetConnections(rows, p, p) == Points(rows, p)
  {
    if rows != [] {
      SourceTargetSelf(rows[..|rows| - 1], p);
    }
  }

  /** The pair counter does not depend on which player is the source. */
  lemma {:induction false} SourceTargetSymmetric(rows: seq<GoalRow>, a: Name, b: Name)
    ensures SourceTargetConnections(rows, a, b) == SourceTargetConnections(rows, b, a)
  {
    if rows != [] {
      SourceTargetSymmetric(rows[..|rows| - 1], a, b);
    }
  }

  /** Dropping the last row keeps every row's credits distinct. */
  lemma DistinctCreditsPrefix(rows: seq<GoalRow>)
    requires rows != [] && AllDistinctCredits(rows)
    ensures AllDistinctCredits(rows[..|rows| - 1]) && DistinctCredits(rows[|rows| - 1])
  {
    var init := rows[..|rows| - 1];
    forall i | 0 <= i < |init| ensures DistinctCredits(init[i]) {
      assert init[i] == rows[i];
    }
  }
}

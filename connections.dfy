/**
 * The two connection-counting rules of the data mapper: the production rule
 * `collectAllConnections` and the unused scorer-assist-only rule
 * `collectScoreAssistConnections`. Each is a loop over the rows that increments
 * a player's counts, specified against a per-row weight summed over the rows.
 */
module ConnectionCounts {
  import opened Wrappers
  import opened ScoreSheet
  import opened Entries

  /** How many of the row's slots hold k. */
  function SlotCount(row: GoalRow, k: Name): (c: nat)
    ensures c > 0 <==> Credited(row, k)
    ensures DistinctCredits(row) ==> c <= 1
  {
    (if row.G == Some(k) then 1 else 0) + (if row.A1 == Some(k) then 1 else 0) + (if row.A2 == Some(k) then 1 else 0)
  }

  lemma PointGettersCount(row: GoalRow, k: Name)
    ensures multiset(PointGetters(row))[Some(k)] == SlotCount(row, k)
  {
    var s := PointGetters(row);
    assert s == [row.G, row.A1] + [row.A2];
    assert [row.G, row.A1] == [row.G] + [row.A1];
    assert multiset(s)[Some(k)] == multiset([row.G])[Some(k)] + multiset([row.A1])[Some(k)] + multiset([row.A2])[Some(k)];
  }

  /** `_.without(s, p)`: s with every occurrence of p removed. */
  function Without(s: seq<Option<Name>>, p: Name): (r: seq<Option<Name>>)
    ensures multiset(r) == multiset(s)[Some(p) := 0]
  {
    if s == [] then []
    else
      var init, x := s[..|s| - 1], s[|s| - 1];
      assert s == init + [x];
      Without(init, p) + (if x == Some(p) then [] else [x])
  }

  /** What one row adds to p's count towards k under `collectAllConnections`:
      1 on the diagonal for an unassisted goal of p's, otherwise, when p is
      credited, one for every slot holding another player k. */
  function RowWeight(row: GoalRow, p: Name, k: Name): (w: nat)
    ensures k == p ==> w == if Unassisted(row, p) then 1 else 0
    ensures k != p ==> (w > 0 <==> Credited(row, p) && Credited(row, k))
    ensures w <= 2
  {
    if Unassisted(row, p) then (if k == p then 1 else 0)
    else if Credited(row, p) && k != p then SlotCount(row, k)
    else 0
  }

  /** p's count towards k after the production rule has run over all rows. */
  function Connections(rows: seq<GoalRow>, p: Name, k: Name): (c: nat)
    ensures c <= 2 * Points(rows, p)
  {
    if rows == [] then 0
    else Connections(rows[..|rows| - 1], p, k) + RowWeight(rows[|rows| - 1], p, k)
  }

  /** `_.each(others, other => connections[other]++)`: one increment per slot
      holding a name. */
  method IncrementEach(connections: map<Name, nat>, others: seq<Option<Name>>) returns (r: map<Name, nat>)
    ensures r.Keys == connections.Keys
    ensures forall k :: k in connections ==> r[k] == connections[k] + multiset(others)[Some(k)]
  {
    r := connections;
    var j := 0;
    while j < |others|
      invariant 0 <= j <= |others|
      invariant r.Keys == connections.Keys
      invariant forall k :: k in r ==> r[k] == connections[k] + multiset(others[..j])[Some(k)]
    {
      assert others[..j + 1] == others[..j] + [others[j]];
      if others[j].Some? {
        r := Bump(r, others[j].value);
      }
      j := j + 1;
    }
    assert others[..j] == others;
  }

  /** For a credited player whose goal is not unassisted, the other point-getters
      are exactly the row's weight towards each name. */
  lemma OthersWeight(row: GoalRow, p: Name, k: Name)
    requires !Unassisted(row, p) && Credited(row, p)
    ensures multiset(Without(PointGetters(row), p))[Some(k)] == RowWeight(row, p, k)
  {
    PointGettersCount(row, k);
  }

  /** `collectAllConnections`: runs the production rule over every row, adding to
      the player's existing counts. */
  method CollectAllConnections(player: PlayerEntry, rows: seq<GoalRow>) returns (counted: PlayerEntry)
    ensures counted == player.(connections := counted.connections)
    ensures counted.connections.Keys == player.connections.Keys
    ensures forall k :: k in player.connections ==>
      counted.connections[k] == player.connections[k] + Connections(rows, player.name, k)
  {
    var connections := player.connections;
    var i := 0;
    while i < |rows|
      invariant 0 <= i <= |rows|
      invariant connections.Keys == player.connections.Keys
      invariant forall k :: k in connections ==>
        connections[k] == player.connections[k] + Connections(rows[..i], player.name, k)
    {
      connections := CountGoal(connections, rows[i], player.name);
      ConnectionsOfPrefix(rows, i, player.name);
      i := i + 1;
    }
    assert rows[..|rows|] == rows;
    counted := player.(connections := connections);
  }

  /** One more row of the prefix adds that row's weight. */
  lemma ConnectionsOfPrefix(rows: seq<GoalRow>, i: nat, p: Name)
    requires i < |rows|
    ensures forall k :: Connections(rows[..i + 1], p, k) == Connections(rows[..i], p, k) + RowWeight(rows[i], p, k)
  {
    assert rows[..i + 1][..i] == rows[..i];
  }

  /** The body of `collectAllConnections`' loop for one goal: p's counts grow by
      the goal's weight towards each name. */
  method CountGoal(connections: map<Name, nat>, goal: GoalRow, p: Name) returns (r: map<Name, nat>)
    ensures r.Keys == connections.Keys
    ensures forall k :: k in connections ==> r[k] == connections[k] + RowWeight(goal, p, k)
  {
    var pointGetters := PointGetters(goal);
    r := connections;
    if Unassisted(goal, p) {
      r := Bump(r, p);
    } else if Credited(goal, p) {
      var others := Without(pointGetters, p);
      r := IncrementEach(r, others);
      forall k | k in connections
        ensures r[k] == connections[k] + RowWeight(goal, p, k)
      {
        OthersWeight(goal, p, k);
      }
    }
  }

  /** What one row adds to p's count towards k under `collectScoreAssistConnections`:
      a scorer gains one towards each assister, an assister one towards the scorer. */
  function ScoreAssistWeight(row: GoalRow, p: Name, k: Name): (w: nat)
    ensures w > 0 ==> Credited(row, p)
    ensures k != p ==> (w > 0 <==> ScorerAndAssister(row, p, k))
    ensures w <= 2
  {
    if Unassisted(row, p) then (if k == p then 1 else 0)
    else if Credited(row, p) then
      if row.G == Some(p) then (if row.A1 == Some(k) then 1 else 0) + (if row.A2 == Some(k) then 1 else 0)
      else (if row.G == Some(k) then 1 else 0)
    else 0
  }

  /** p's count towards k after the scorer-assist rule has run over all rows. */
  function ScoreAssistConnections(rows: seq<GoalRow>, p: Name, k: Name): (c: nat)
    ensures c <= 2 * Points(rows, p)
  {
    if rows == [] then 0
    else ScoreAssistConnections(rows[..|rows| - 1], p, k) + ScoreAssistWeight(rows[|rows| - 1], p, k)
  }

  /** `collectScoreAssistConnections`: runs the scorer-assist rule over every row. */
  method CollectScoreAssistConnections(player: PlayerEntry, rows: seq<GoalRow>) returns (counted: PlayerEntry)
    ensures counted == player.(connections := counted.connections)
    ensures counted.connections.Keys == player.connections.Keys
    ensures forall k :: k in player.connections ==>
      counted.connections[k] == player.connections[k] + ScoreAssistConnections(rows, player.name, k)
  {
    var connections := player.connections;
    var i := 0;
    while i < |rows|
      invariant 0 <= i <= |rows|
      invariant connections.Keys == player.connections.Keys
      invariant forall k :: k in connections ==>
        connections[k] == player.connections[k] + ScoreAssistConnections(rows[..i], player.name, k)
    {
      connections := CountScoreAssistGoal(connections, rows[i], player.name);
      ScoreAssistConnectionsOfPrefix(rows, i, player.name);
      i := i + 1;
    }
    assert rows[..|rows|] == rows;
    counted := player.(connections := connections);
  }
  /** One more row of the prefix adds that row's weight under the scorer-assist rule. */
  lemma ScoreAssistConnectionsOfPrefix(rows: seq<GoalRow>, i: nat, p: Name)
    requires i < |rows|
    ensures forall k ::
      ScoreAssistConnections(rows[..i + 1], p, k) == ScoreAssistConnections(rows[..i], p, k) + ScoreAssistWeight(rows[i], p, k)
  {
    assert rows[..i + 1][..i] == rows[..i];
  }

  /** The body of `collectScoreAssistConnections`' loop for one goal: p's counts
      grow by the goal's weight under the scorer-assist rule. */
  method CountScoreAssistGoal(connections: map<Name, nat>, goal: GoalRow, p: Name) returns (r: map<Name, nat>)
    ensures r.Keys == connections.Keys
    ensures forall k :: k in connections ==> r[k] == connections[k] + ScoreAssistWeight(goal, p, k)
  {
    r := connections;
    if Unassisted(goal, p) {
      r := Bump(r, p);
    } else if Credited(goal, p) {
      if goal.G == Some(p) {
        if goal.A1.Some? {
          r := Bump(r, goal.A1.value);
        }
        if goal.A2.Some? {
          r := Bump(r, goal.A2.value);
        }
      } else if goal.A1 == Some(p) || goal.A2 == Some(p) {
        if goal.G.Some? {
          r := Bump(r, goal.G.value);
        }
      }
    }
  }


  /** A player's diagonal entry counts exactly the goals they scored unassisted. */
  lemma {:induction false} ConnectionsDiagonal(rows: seq<GoalRow>, p: Name)
    ensures Connections(rows, p, p) == UnassistedGoals(rows, p)
  {
    if rows != [] {
      ConnectionsDiagonal(rows[..|rows| - 1], p);
    }
  }

  /** Between two different players the production rule counts the goals that
      credit both of them, assist-assist pairs included. */
  lemma {:induction false} ConnectionsBetween(rows: seq<GoalRow>, a: Name, b: Name)
    requires a != b && AllDistinctCredits(rows)
    ensures Connections(rows, a, b) == SourceTargetConnections(rows, a, b)
  {
    if rows != [] {
      var init := rows[..|rows| - 1];
      DistinctCreditsPrefix(rows);
      ConnectionsBetween(init, a, b);
    }
  }

  /** The production rule's counts form a symmetric matrix. */
  lemma ConnectionsSymmetric(rows: seq<GoalRow>, a: Name, b: Name)
    requires AllDistinctCredits(rows)
    ensures Connections(rows, a, b) == Connections(rows, b, a)
  {
    if a != b {
      ConnectionsBetween(rows, a, b);
      ConnectionsBetween(rows, b, a);
      SourceTargetSymmetric(rows, a, b);
    }
  }

  /** An unassisted goal by s adds exactly 1 to s's diagonal entry and changes no other count. */
  lemma UnassistedGoalAdds(rows: seq<GoalRow>, goal: GoalRow, s: Name, p: Name, k: Name)
    requires Unassisted(goal, s)
    ensures Connections(rows + [goal], p, k) == Connections(rows, p, k) + (if p == s && k == s then 1 else 0)
  {
    assert (rows + [goal])[..|rows|] == rows;
  }

  /** An assisted goal adds to each credited player's count towards every other
      player one per slot that player fills, and changes no diagonal entry; on a
      row that names nobody twice that is 1 for every ordered pair of different
      players it credits. */
  lemma AssistedGoalAdds(rows: seq<GoalRow>, goal: GoalRow, p: Name, k: Name)
    requires goal.A1.Some? || goal.A2.Some?
    ensures Connections(rows + [goal], p, k)
      == Connections(rows, p, k) + (if p != k && Credited(goal, p) then SlotCount(goal, k) else 0)
    ensures DistinctCredits(goal) ==>
      Connections(rows + [goal], p, k) == Connections(rows, p, k) + (if p != k && Credited(goal, p) && Credited(goal, k) then 1 else 0)
  {
    assert (rows + [goal])[..|rows|] == rows;
  }

  /** Under the scorer-assist rule two different players are linked once per goal
      on which one scored and the other assisted. */
  lemma {:induction false} ScoreAssistBetween(rows: seq<GoalRow>, a: Name, b: Name)
    requires a != b && AllDistinctCredits(rows)
    ensures ScoreAssistConnections(rows, a, b) == ScorerAssisterGoals(rows, a, b)
  {
    if rows != [] {
      var init := rows[..|rows| - 1];
      DistinctCreditsPrefix(rows);
      ScoreAssistBetween(init, a, b);
    }
  }

  /** Under the scorer-assist rule two players who both assisted a goal scored by
      someone else gain nothing towards each other from it. */
  lemma AssistersNotLinked(goal: GoalRow, a: Name, b: Name)
    requires goal.G != Some(a) && goal.G != Some(b) && a != b
    ensures ScoreAssistWeight(goal, a, b) == 0
  {
  }

  /** The two rules differ by exactly the goals two players both assisted: those
      link them under the production rule and not under the scorer-assist rule. */
  lemma RulesDifferByAssistPairs(rows: seq<GoalRow>, a: Name, b: Name)
    requires a != b && AllDistinctCredits(rows)
    ensures Connections(rows, a, b) == ScoreAssistConnections(rows, a, b) + BothAssisted(rows, a, b)
  {
    ConnectionsBetween(rows, a, b);
    ScoreAssistBetween(rows, a, b);
    SharedGoalsSplit(rows, a, b);
  }

  /** A goal crediting two different players either has one of them as scorer or
      has both as assisters. */
  lemma {:induction false} SharedGoalsSplit(rows: seq<GoalRow>, a: Name, b: Name)
    requires a != b && AllDistinctCredits(rows)
    ensures SourceTargetConnections(rows, a, b) == ScorerAssisterGoals(rows, a, b) + BothAssisted(rows, a, b)
  {
    if rows != [] {
      var init := rows[..|rows| - 1];
      DistinctCreditsPrefix(rows);
      SharedGoalsSplit(init, a, b);
    }
  }

  /** Under the scorer-assist rule, too, the diagonal counts exactly the unassisted goals. */
  lemma {:induction false} ScoreAssistDiagonal(rows: seq<GoalRow>, p: Name)
    requires AllDistinctCredits(rows)
    ensures ScoreAssistConnections(rows, p, p) == UnassistedGoals(rows, p)
  {
    if rows != [] {
      DistinctCreditsPrefix(rows);
      ScoreAssistDiagonal(rows[..|rows| - 1], p);
    }
  }

  /** Three goals: A alone, B from A, A from B and C. A's diagonal is 1, A and B
      are linked twice, A and C once, B and C once (as co-point-getters of the
      third goal), and B and C have no unassisted goal. */
  lemma ThreeGoalExample()
    ensures var rows := [GoalRow(Some("A"), None, None, "", ""),
                         GoalRow(Some("B"), Some("A"), None, "", ""),
                         GoalRow(Some("A"), Some("B"), Some("C"), "", "")];
      && Connections(rows, "A", "A") == 1 && Connections(rows, "B", "B") == 0 && Connections(rows, "C", "C") == 0
      && Connections(rows, "A", "B") == 2 && Connections(rows, "B", "A") == 2
      && Connections(rows, "A", "C") == 1 && Connections(rows, "C", "A") == 1
      && Connections(rows, "B", "C") == 1 && Connections(rows, "C", "B") == 1
  {
    var a, b, c := GoalRow(Some("A"), None, None, "", ""), GoalRow(Some("B"), Some("A"), None, "", ""),
                   GoalRow(Some("A"), Some("B"), Some("C"), "", "");
    ConnectionsOfThree(a, b, c, "A", "A");
    ConnectionsOfThree(a, b, c, "B", "B");
    ConnectionsOfThree(a, b, c, "C", "C");
    ConnectionsOfThree(a, b, c, "A", "B");
    ConnectionsOfThree(a, b, c, "B", "A");
    ConnectionsOfThree(a, b, c, "A", "C");
    ConnectionsOfThree(a, b, c, "C", "A");
    ConnectionsOfThree(a, b, c, "B", "C");
    ConnectionsOfThree(a, b, c, "C", "B");
  }

  lemma ConnectionsOfThree(a: GoalRow, b: GoalRow, c: GoalRow, p: Name, k: Name)
    ensures Connections([a, b, c], p, k) == RowWeight(a, p, k) + RowWeight(b, p, k) + RowWeight(c, p, k)
  {
    assert [a][..0] == [];
    assert Connections([a], p, k) == RowWeight(a, p, k);
    assert [a, b][..1] == [a];
    assert Connections([a, b], p, k) == RowWeight(a, p, k) + RowWeight(b, p, k);
    assert [a, b, c][..2] == [a, b];
  }
}

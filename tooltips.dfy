/**
 * The text the data mapper hands to the tooltips: a player's summary, a chord's
 * summary and the date of the latest goal.
 */
module Tooltips {
  import opened ScoreSheet
  import opened Shares
  import opened Entries
  import opened PlayerMaps

  /** "goal" or "goals", "point" or "points": the singular exactly when the count is 1. */
  function Noun(count: nat, singular: string): (word: string)
    ensures word == singular <==> count == 1
    ensures count != 1 ==> word == singular + "s"
  {
    if count == 1 then singular else singular + "s"
  }

  /** `setPlayerInfo`: goals and points with their shares of all goals. */
  function PlayerInfoText(info: PlayerEntry): (text: string)
    ensures |text| > 10 && text[|text| - 10..] == " of goals)"
  {
    NatToString(info.goals) + " " + Noun(info.goals, "goal") + InfoAfterGoalWord(info)
  }

  /** Everything of the player summary after the word "goal" or "goals". */
  function InfoAfterGoalWord(info: PlayerEntry): string
  {
    " (scored " + Percentage(info.goalPercentage) + " of goals)\n"
      + NatToString(info.points) + " " + Noun(info.points, "point") + " (involved in " + Percentage(info.involvement) + " of goals)"
  }

  /** The player summary opens with the goal count followed by " goal " when it is 1
      and by " goals" otherwise. */
  lemma PlayerInfoGoalWording(info: PlayerEntry)
    ensures var digits := NatToString(info.goals); var text := PlayerInfoText(info);
      |digits| + 6 <= |text|
      && text[..|digits|] == digits
      && (info.goals == 1 <==> text[|digits|..|digits| + 6] == " goal ")
      && (info.goals != 1 <==> text[|digits|..|digits| + 6] == " goals")
  {
    var rest := InfoAfterGoalWord(info);
    assert |rest| > 0 && rest[0] == ' ';
    WordAfterCount(NatToString(info.goals), info.goals, rest);
  }

  lemma WordAfterCount(digits: string, count: nat, rest: string)
    requires |rest| > 0 && rest[0] == ' '
    ensures var text := digits + " " + Noun(count, "goal") + rest;
      |digits| + 6 <= |text|
      && text[..|digits|] == digits
      && (count == 1 <==> text[|digits|..|digits| + 6] == " goal ")
      && (count != 1 <==> text[|digits|..|digits| + 6] == " goals")
  {
    var text := digits + " " + Noun(count, "goal") + rest;
    assert text[..|digits|] == digits;
    if count == 1 {
      assert text[|digits|..|digits| + 6] == " goal" + rest[..1];
    } else {
      assert text[|digits|..|digits| + 6] == " goals";
    }
  }

  /** One end of a chord as the chord layout reports it: a player index and the chord's weight. */
  datatype ChordEnd = ChordEnd(index: nat, value: nat)

  datatype Chord = Chord(source: ChordEnd, target: ChordEnd)

  /** What `collectChordInfo` returns: for a self-chord the share of the player's
      points scored unassisted; for a chord between two players the share of each
      one's points that the connection makes up (toTarget for the target's points,
      toSource for the source's). */
  datatype ChordInfo =
    | SelfInfo(name: Name, unassisted: Quotient)
    | PairInfo(sourceName: Name, toTarget: Quotient, targetName: Name, toSource: Quotient)

  /** `collectChordInfo`: shares of the chord weight in the two players' points, each guarded with `|| 0`. */
  function CollectChordInfo(playerMap: seq<PlayerEntry>, chord: Chord): (info: ChordInfo)
    requires chord.source.index < |playerMap| && chord.target.index < |playerMap|
    ensures var source, target := playerMap[chord.source.index], playerMap[chord.target.index];
      && (info.SelfInfo? <==> source.name == target.name)
      && (info.SelfInfo? ==>
            && info.name == source.name && !info.unassisted.NaN?
            && (source.points > 0 ==> info.unassisted == Fraction(chord.source.value, source.points)))
      && (info.PairInfo? ==>
            && info.sourceName == source.name && info.targetName == target.name
            && !info.toTarget.NaN? && !info.toSource.NaN?
            && (target.points > 0 ==> info.toTarget == Fraction(chord.source.value, target.points))
            && (source.points > 0 ==> info.toSource == Fraction(chord.source.value, source.points)))
  {
    var source, target := playerMap[chord.source.index], playerMap[chord.target.index];
    if source.name != target.name then
      var connections := chord.source.value;
      PairInfo(source.name, OrZero(Divide(connections, target.points)),
               target.name, OrZero(Divide(connections, source.points)))
    else
      SelfInfo(source.name, OrZero(Divide(chord.source.value, source.points)))
  }

  /** `setChordInfo`: one sentence for a self-chord, two for a chord between players. */
  function ChordText(info: ChordInfo): (text: string)
    ensures info.SelfInfo? ==>
      var tail := " of his points without assistance.";
      |info.name| + |tail| < |text| && text[..|info.name|] == info.name && text[|text| - |tail|..] == tail
    ensures info.PairInfo? ==>
      var head, tail := info.sourceName + " scored ", " of his points with " + info.sourceName;
      |head| + |tail| < |text| && text[..|head|] == head && text[|text| - |tail|..] == tail
  {
    match info
    case PairInfo(sourceName, toTarget, targetName, toSource) =>
      sourceName + " scored " + Percentage(toSource) + " of his points with " + targetName + "\n"
        + targetName + " scored " + Percentage(toTarget) + " of his points with " + sourceName
    case SelfInfo(name, unassisted) =>
      name + " scored " + Percentage(unassisted) + " of his points without assistance."
  }

  /** On the map built from a source, a chord is described as unassisted exactly
      when both ends are the same player, and every share is the chord weight over
      a positive point total, never the undefined 0 / 0 or x / 0. */
  lemma ChordInfoOnPlayerMap(rows: seq<GoalRow>, chord: Chord)
    requires chord.source.index < |CollectPlayers(rows)| && chord.target.index < |CollectPlayers(rows)|
    ensures var players, info := CollectPlayers(rows), CollectChordInfo(PlayerMapFor(rows), chord);
      var s, t, weight := chord.source.index, chord.target.index, chord.source.value;
      && (info.SelfInfo? <==> s == t)
      && (info.SelfInfo? ==> info == SelfInfo(players[s], Fraction(weight, Points(rows, players[s]))))
      && (info.PairInfo? ==> info == PairInfo(players[s], Fraction(weight, Points(rows, players[t])),
                                              players[t], Fraction(weight, Points(rows, players[s]))))
      && 0 < Points(rows, players[s]) && 0 < Points(rows, players[t])
  {
    var players, playerMap := CollectPlayers(rows), PlayerMapFor(rows);
    var s, t := chord.source.index, chord.target.index;
    assert playerMap[s] == CompletedEntry(players[s], players, rows, |rows|);
    assert playerMap[t] == CompletedEntry(players[t], players, rows, |rows|);
    CollectPlayersArePointGetters(rows, players[s]);
    CollectPlayersArePointGetters(rows, players[t]);
  }

  /** `lastUpdate`: the date and opponent of the last row. */
  function LastUpdateText(rows: seq<GoalRow>): (text: string)
    requires rows != []
    ensures var last := rows[|rows| - 1];
      |last.Date| + |last.Opponent| < |text|
      && text[..|last.Date|] == last.Date
      && text[|text| - |last.Opponent|..] == last.Opponent
  {
    var lastGoal := rows[|rows| - 1];
    lastGoal.Date + " against " + lastGoal.Opponent
  }
}

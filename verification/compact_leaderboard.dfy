/**
 The leaderboard footer (src/components/CompactLeaderboard.tsx, copied
 inline in App.tsx): which row is the learner's, the motivational line
 above the table, and which row is highlighted.
 */
module CompactLeaderboard {
  import opened Types
  import opened Leaderboard

  /** The motivational line: none, the points needed to pass the row above, or the top-of-the-table cheer. */
  datatype Hint = NoHint | Overtake(points: int, rival: string) | AtTop

  /**
   The row above the learner's is shown with the XP gap when that gap is
   positive; the first row gets the cheer when anyone else is listed.
   A learner not found gets no line.
   */
  function MotivationalHint(rows: seq<LeaderboardUser>, current: LeaderboardUser): (h: Hint)
    ensures var k := FindIndex(rows, current.name);
      h.Overtake? <==> k > 0 && rows[k - 1].xp > rows[k].xp
    ensures var k := FindIndex(rows, current.name);
      h.Overtake? ==> h.points == rows[k - 1].xp - rows[k].xp && h.points > 0 && h.rival == rows[k - 1].name
    ensures h.AtTop? <==> FindIndex(rows, current.name) == 0 && |rows| > 1
  {
    var k := FindIndex(rows, current.name);
    if k > 0 then
      var pointsNeeded := rows[k - 1].xp - rows[k].xp;
      if pointsNeeded > 0 then Overtake(pointsNeeded, rows[k - 1].name) else NoHint
    else if k == 0 && |rows| > 1 then AtTop
    else NoHint
  }

  /** `user.rank === currentUserData?.rank`: a row is highlighted when it has the rank of the learner's row; nothing is when that row is missing. */
  predicate Highlighted(rows: seq<LeaderboardUser>, current: LeaderboardUser, row: LeaderboardUser) {
    var k := FindIndex(rows, current.name);
    k >= 0 && row.rank == rows[k].rank
  }

  predicate RankedInOrder(rows: seq<LeaderboardUser>) {
    forall i :: 0 <= i < |rows| ==> rows[i].rank == i + 1
  }

  /** With ranks 1, 2, ... in list order, exactly the learner's row is highlighted, and none when it is missing. */
  lemma HighlightIsLearnerRow(rows: seq<LeaderboardUser>, current: LeaderboardUser)
    requires RankedInOrder(rows)
    ensures forall i :: 0 <= i < |rows| ==> (Highlighted(rows, current, rows[i]) <==> i == FindIndex(rows, current.name))
  {
  }

  /**
   On the leaderboard the footer receives, exactly one row is highlighted,
   the first carrying the learner's name; the learner is never missing, so
   the line is missing only when the learner's row ties with the row above.
   */
  lemma FooterOnLeaderboard(username: Option<string>, level: int, xp: int, i: int)
    requires 0 <= i < 13
    ensures var rows := LeaderboardData(username, level, xp);
      var current := CurrentUser(rows, username, level, xp);
      Highlighted(rows, current, rows[i]) <==> i == FindIndex(rows, DisplayName(username))
    ensures var rows := LeaderboardData(username, level, xp);
      var current := CurrentUser(rows, username, level, xp);
      var k := FindIndex(rows, DisplayName(username));
      MotivationalHint(rows, current).NoHint? <==> k > 0 && rows[k - 1].xp == rows[k].xp
  {
    var rows := LeaderboardData(username, level, xp);
    var tagged := Tag(Combined(username, level, xp));
    SortEntriesOrdered(tagged);
    CurrentUserOnLeaderboard(username, level, xp);
    LeaderboardDataSpec(username, level, xp, SortEntries(tagged));
    HighlightIsLearnerRow(rows, CurrentUser(rows, username, level, xp));
  }
}

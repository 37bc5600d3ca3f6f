/**
 The leaderboard (`leaderboardData` and `currentUserForLeaderboard` of
 src/App.tsx and App.tsx): the fixed roster plus the current learner,
 sorted by XP, highest first, with a stable sort (ties keep input order),
 ranked 1, 2, ... in list order.
 */
module Leaderboard {
  import opened Types

  /** A roster row before ranking (`Omit<LeaderboardUser, 'rank'>`). */
  datatype Player = Player(name: string, level: int, xp: int)

  const MockRoster: seq<Player> := [
    Player("SabelotodoSupremo", 15, 3050),
    Player("Cerebrito", 14, 2890),
    Player("MaestroDelQuiz", 12, 2510),
    Player("EstudianteEstrella", 11, 2240),
    Player("MenteBrillante", 10, 2080),
    Player("EstudiosoPro", 8, 1750),
    Player("ElIluminado", 7, 1520),
    Player("SumaPuntos", 6, 1240),
    Player("CazadorDeLogros", 4, 880),
    Player("AprendizConstante", 3, 650),
    Player("NovatoEstelar", 2, 410),
    Player("ElPersistente", 1, 150)
  ]

  const DefaultName: string := "Tú"

  /** `username || 'Tú'`: a missing or empty user name shows as "Tú". */
  function DisplayName(username: Option<string>): (n: string)
    ensures n != ""
    ensures username.Some? && username.value != "" ==> n == username.value
    ensures username.None? || username.value == "" ==> n == DefaultName
  {
    if username.None? || username.value == "" then DefaultName else username.value
  }

  /** The roster followed by the current learner. */
  function Combined(username: Option<string>, level: int, xp: int): seq<Player> {
    MockRoster + [Player(DisplayName(username), level, xp)]
  }

  /** A row tagged with its position in the unsorted input, which is what stability refers to. */
  datatype Entry = Entry(pos: nat, player: Player)

  function Tag(players: seq<Player>): (t: seq<Entry>)
    ensures |t| == |players|
    ensures forall i :: 0 <= i < |t| ==> t[i] == Entry(i, players[i])
  {
    seq(|players|, i requires 0 <= i < |players| => Entry(i, players[i]))
  }

  /** `a` comes before `b` in the sorted list: more XP, or equal XP and earlier in the input. */
  predicate Before(a: Entry, b: Entry) {
    a.player.xp > b.player.xp || (a.player.xp == b.player.xp && a.pos < b.pos)
  }

  predicate StrictlyOrdered(s: seq<Entry>) {
    forall i, j :: 0 <= i < j < |s| ==> Before(s[i], s[j])
  }

  predicate PositionsIncrease(s: seq<Entry>) {
    forall i, j :: 0 <= i < j < |s| ==> s[i].pos < s[j].pos
  }

  /** Places `e` before the first row with strictly less XP, that is after every row with at least as much. */
  function Insert(s: seq<Entry>, e: Entry): (r: seq<Entry>)
    ensures multiset(r) == multiset(s) + multiset{e}
    ensures |r| == |s| + 1
  {
    if |s| == 0 then [e]
    else if s[0].player.xp < e.player.xp then [e] + s
    else
      assert s == [s[0]] + s[1..];
      [s[0]] + Insert(s[1..], e)
  }

  /** The stable sort by XP, highest first (`sort((a, b) => b.xp - a.xp)`), as insertion sort. */
  function SortEntries(s: seq<Entry>): (r: seq<Entry>)
    ensures multiset(r) == multiset(s)
    ensures |r| == |s|
    decreases |s|
  {
    if |s| == 0 then []
    else
      assert s == s[..|s| - 1] + [s[|s| - 1]];
      Insert(SortEntries(s[..|s| - 1]), s[|s| - 1])
  }

  /** Inserting a row that comes later in the input than every sorted row keeps the list strictly ordered. */
  lemma {:induction false} InsertOrdered(s: seq<Entry>, e: Entry)
    requires StrictlyOrdered(s)
    requires forall x :: x in s ==> x.pos < e.pos
    ensures StrictlyOrdered(Insert(s, e))
    decreases |s|
  {
    if |s| > 0 && s[0].player.xp >= e.player.xp {
      var tail := Insert(s[1..], e);
      InsertOrdered(s[1..], e);
      forall x | x in tail
        ensures Before(s[0], x)
      {
        assert x in multiset(tail);
        if x != e {
          assert x in multiset(s[1..]);
          var j :| 0 <= j < |s[1..]| && s[1..][j] == x;
          assert s[1 + j] == x;
        }
      }
      var r := Insert(s, e);
      assert r == [s[0]] + tail;
      forall i, j | 0 <= i < j < |r|
        ensures Before(r[i], r[j])
      {
        if i == 0 {
          assert r[j] == tail[j - 1];
          assert r[j] in tail;
        } else {
          assert r[i] == tail[i - 1] && r[j] == tail[j - 1];
        }
      }
    }
  }

  /** On input whose positions increase, the sort yields the strictly ordered permutation. */
  lemma {:induction false} SortEntriesOrdered(s: seq<Entry>)
    requires PositionsIncrease(s)
    ensures StrictlyOrdered(SortEntries(s))
    decreases |s|
  {
    if |s| > 0 {
      var n := |s| - 1;
      var prefix := s[..n];
      SortEntriesOrdered(prefix);
      forall x | x in SortEntries(prefix)
        ensures x.pos < s[n].pos
      {
        assert x in multiset(SortEntries(prefix));
        assert x in prefix;
      }
      InsertOrdered(SortEntries(prefix), s[n]);
    }
  }

  /** Two strictly ordered arrangements of the same rows start with the same row. */
  lemma OrderedHeadsAgree(a: seq<Entry>, b: seq<Entry>)
    requires StrictlyOrdered(a) && StrictlyOrdered(b)
    requires multiset(a) == multiset(b)
    requires |a| > 0
    ensures |b| > 0 && a[0] == b[0]
  {
    assert a[0] in multiset(b);
    var j :| 0 <= j < |b| && b[j] == a[0];
    assert b[0] in multiset(a);
    var k :| 0 <= k < |a| && a[k] == b[0];
    assert j == 0 || k == 0;
  }

  /** Dropping the first row keeps the list strictly ordered and removes that row from the collection. */
  lemma OrderedTail(s: seq<Entry>)
    requires StrictlyOrdered(s) && |s| > 0
    ensures StrictlyOrdered(s[1..])
    ensures multiset(s[1..]) == multiset(s) - multiset{s[0]}
  {
    assert s == [s[0]] + s[1..];
  }

  /** There is only one strictly ordered arrangement of a collection of rows. */
  lemma {:induction false} OrderedPermutationUnique(a: seq<Entry>, b: seq<Entry>)
    requires StrictlyOrdered(a) && StrictlyOrdered(b)
    requires multiset(a) == multiset(b)
    ensures a == b
    decreases |a|
  {
    if |a| == 0 {
      assert |b| == |multiset(b)| == 0;
    } else {
      OrderedHeadsAgree(a, b);
      OrderedTail(a);
      OrderedTail(b);
      OrderedPermutationUnique(a[1..], b[1..]);
      assert a == [a[0]] + a[1..];
      assert b == [b[0]] + b[1..];
    }
  }

  /** Rows with their ranks: rank is position plus one. */
  function RankEntries(s: seq<Entry>): (r: seq<LeaderboardUser>)
    ensures |r| == |s|
    ensures forall i :: 0 <= i < |s| ==>
      r[i] == LeaderboardUser(i + 1, s[i].player.name, s[i].player.level, s[i].player.xp)
  {
    seq(|s|, i requires 0 <= i < |s| => LeaderboardUser(i + 1, s[i].player.name, s[i].player.level, s[i].player.xp))
  }

  /** `leaderboardData`. */
  function LeaderboardData(username: Option<string>, level: int, xp: int): (r: seq<LeaderboardUser>)
    ensures |r| == |MockRoster| + 1
    ensures forall i :: 0 <= i < |r| ==> r[i].rank == i + 1
  {
    RankEntries(SortEntries(Tag(Combined(username, level, xp))))
  }

  /**
   The leaderboard is the roster plus the learner, ranked 1 to 13 in list
   order, XP non-increasing down the list, and it is the unique strictly
   ordered arrangement of the tagged input: equal XP keeps input order.
   */
  lemma LeaderboardDataSpec(username: Option<string>, level: int, xp: int, arrangement: seq<Entry>)
    requires StrictlyOrdered(arrangement)
    requires multiset(arrangement) == multiset(Tag(Combined(username, level, xp)))
    ensures |LeaderboardData(username, level, xp)| == 13
    ensures forall i :: 0 <= i < 13 ==> LeaderboardData(username, level, xp)[i].rank == i + 1
    ensures forall i, j :: 0 <= i < j < 13 ==> LeaderboardData(username, level, xp)[i].xp >= LeaderboardData(username, level, xp)[j].xp
    ensures LeaderboardData(username, level, xp) == RankEntries(arrangement)
  {
    var tagged := Tag(Combined(username, level, xp));
    SortEntriesOrdered(tagged);
    OrderedPermutationUnique(SortEntries(tagged), arrangement);
    assert |tagged| == |multiset(tagged)| == |multiset(SortEntries(tagged))| == |SortEntries(tagged)|;
  }

  /** The learner's own row always appears in the leaderboard, whatever the XP. */
  lemma LearnerListed(username: Option<string>, level: int, xp: int)
    ensures exists i :: (0 <= i < |LeaderboardData(username, level, xp)| &&
      LeaderboardData(username, level, xp)[i] == LeaderboardUser(i + 1, DisplayName(username), level, xp))
  {
    var tagged := Tag(Combined(username, level, xp));
    var sorted := SortEntries(tagged);
    var me := Entry(12, Player(DisplayName(username), level, xp));
    assert tagged[12] == me;
    assert me in multiset(sorted);
    var i :| 0 <= i < |sorted| && sorted[i] == me;
    assert LeaderboardData(username, level, xp)[i] == LeaderboardUser(i + 1, DisplayName(username), level, xp);
  }

  /** Where the learner's row lands: first with more XP than anyone on the roster, last with less. */
  lemma LearnerRankExtremes(username: Option<string>, level: int, xp: int)
    ensures (forall k :: 0 <= k < |MockRoster| ==> MockRoster[k].xp < xp) ==>
      LeaderboardData(username, level, xp)[0] == LeaderboardUser(1, DisplayName(username), level, xp)
    ensures (forall k :: 0 <= k < |MockRoster| ==> MockRoster[k].xp > xp) ==>
      LeaderboardData(username, level, xp)[12] == LeaderboardUser(13, DisplayName(username), level, xp)
  {
    var tagged := Tag(Combined(username, level, xp));
    var sorted := SortEntries(tagged);
    var me := Entry(12, Player(DisplayName(username), level, xp));
    assert tagged[12] == me;
    SortEntriesOrdered(tagged);
    assert |sorted| == 13 by {
      assert |tagged| == |multiset(tagged)| == |multiset(sorted)| == |sorted|;
    }
    assert me in multiset(sorted);
    var i :| 0 <= i < 13 && sorted[i] == me;
    if forall k :: 0 <= k < |MockRoster| ==> MockRoster[k].xp < xp {
      assert sorted[0] in multiset(tagged);
      var k :| 0 <= k < 13 && tagged[k] == sorted[0];
      assert i == 0;
    }
    if forall k :: 0 <= k < |MockRoster| ==> MockRoster[k].xp > xp {
      assert sorted[12] in multiset(tagged);
      var k :| 0 <= k < 13 && tagged[k] == sorted[12];
      assert i == 12;
    }
  }

  /** With 3060 XP the learner tops the board, above the 3050 XP roster leader; with 100 XP the learner is last. */
  lemma LearnerRankExamples(username: Option<string>, level: int)
    ensures LeaderboardData(username, level, 3060)[0] == LeaderboardUser(1, DisplayName(username), level, 3060)
    ensures LeaderboardData(username, level, 100)[12] == LeaderboardUser(13, DisplayName(username), level, 100)
  {
    LearnerRankExtremes(username, level, 3060);
    LearnerRankExtremes(username, level, 100);
  }

  /** The first row whose name matches (`findIndex`), or -1. */
  function FindIndex(rows: seq<LeaderboardUser>, name: string): (k: int)
    ensures -1 <= k < |rows|
    ensures k >= 0 ==> rows[k].name == name && forall j :: 0 <= j < k ==> rows[j].name != name
    ensures k == -1 <==> forall j :: 0 <= j < |rows| ==> rows[j].name != name
  {
    if |rows| == 0 then -1
    else if rows[0].name == name then 0
    else
      var k := FindIndex(rows[1..], name);
      if k == -1 then -1 else k + 1
  }

  /**
   `currentUserForLeaderboard`: the first row carrying the learner's display
   name, or a rank-0 row built from the learner's own figures when none does.
   */
  function CurrentUser(rows: seq<LeaderboardUser>, username: Option<string>, level: int, xp: int): (u: LeaderboardUser)
    ensures u.name == DisplayName(username)
    ensures FindIndex(rows, DisplayName(username)) >= 0 ==> u == rows[FindIndex(rows, DisplayName(username))]
    ensures FindIndex(rows, DisplayName(username)) == -1 ==> u == LeaderboardUser(0, DisplayName(username), level, xp)
  {
    var k := FindIndex(rows, DisplayName(username));
    if k >= 0 then rows[k] else LeaderboardUser(0, DisplayName(username), level, xp)
  }

  /**
   On the real leaderboard the fallback is never used: the learner's name is
   always found, with a rank from 1 to 13. When no roster name equals the
   learner's, the row found is the learner's own.
   */
  lemma CurrentUserOnLeaderboard(username: Option<string>, level: int, xp: int)
    ensures var u := CurrentUser(LeaderboardData(username, level, xp), username, level, xp);
      1 <= u.rank <= 13
    ensures (forall k :: 0 <= k < |MockRoster| ==> MockRoster[k].name != DisplayName(username)) ==>
      var u := CurrentUser(LeaderboardData(username, level, xp), username, level, xp);
      u.level == level && u.xp == xp
  {
    var rows := LeaderboardData(username, level, xp);
    LearnerListed(username, level, xp);
    var tagged := Tag(Combined(username, level, xp));
    var sorted := SortEntries(tagged);
    assert |sorted| == 13 by {
      assert |tagged| == |multiset(tagged)| == |multiset(sorted)| == |sorted|;
    }
    var k := FindIndex(rows, DisplayName(username));
    assert k >= 0;
    if forall m :: 0 <= m < |MockRoster| ==> MockRoster[m].name != DisplayName(username) {
      assert sorted[k] in multiset(tagged);
      var m :| 0 <= m < 13 && tagged[m] == sorted[k];
      assert m == 12;
    }
  }
}

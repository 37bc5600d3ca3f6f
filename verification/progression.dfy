/**
 The progression engine: `addXp` of src/App.tsx (and its copy in App.tsx),
 a pure step over the learner's progress record. It adds the points, raises
 the level when the new total reaches a higher one, prepends an activity-log
 entry, and unlocks every locked badge whose rule now holds, announcing the
 first of them in table order.
 */
module Progression {
  import opened Types
  import opened BadgeRules
  import opened Constants

  datatype Progress = Progress(
    xp: int,
    level: int,
    topicsCompleted: int,
    badges: seq<Badge>,
    activityLog: seq<ActivityLogEntry>)

  /** The progress a new learner starts with. */
  const InitialProgress: Progress := Progress(0, 1, 0, InitialBadges, [])

  /**
   `Math.floor(xp / XP_TO_LEVEL_UP) + 1`. Dafny's `/` by a positive divisor
   rounds toward negative infinity, as `Math.floor` does.
   */
  function LevelFor(xp: int): (l: int)
    ensures xp >= 0 ==> l >= 1 && (l - 1) * XpToLevelUp <= xp < l * XpToLevelUp
  {
    xp / XpToLevelUp + 1
  }

  /** The invariant the engine keeps: the stored level is the one the XP total belongs to. */
  predicate LevelConsistent(p: Progress) {
    p.level == LevelFor(p.xp)
  }

  /** A badge that is still locked and whose rule holds for the given figures. */
  predicate Unlocks(b: Badge, xp: int, level: int, topics: int) {
    !b.achieved && Holds(RuleOf(b.id), xp, level, topics)
  }

  /** `k` is the first position whose badge unlocks for the given figures. */
  predicate IsFirstUnlock(bs: seq<Badge>, k: int, xp: int, level: int, topics: int) {
    && 0 <= k < |bs|
    && Unlocks(bs[k], xp, level, topics)
    && forall j :: 0 <= j < k ==> !Unlocks(bs[j], xp, level, topics)
  }

  /** The outcome of one pass over the badge list. */
  datatype BadgeScan = BadgeScan(badges: seq<Badge>, firstUnlocked: Option<Badge>)

  /**
   The `forEach` over the badges: an achieved badge is skipped, a locked one
   becomes achieved when its rule holds; the first badge unlocked in list
   order is the one announced.
   */
  function ScanBadges(bs: seq<Badge>, xp: int, level: int, topics: int): (r: BadgeScan)
    ensures |r.badges| == |bs|
    ensures forall i :: 0 <= i < |bs| && bs[i].achieved ==> r.badges[i] == bs[i]
    ensures forall i :: 0 <= i < |bs| && !bs[i].achieved ==>
      r.badges[i] == bs[i].(achieved := Holds(RuleOf(bs[i].id), xp, level, topics))
  {
    if |bs| == 0 then BadgeScan([], None)
    else
      var rest := ScanBadges(bs[1..], xp, level, topics);
      var b := bs[0];
      if Unlocks(b, xp, level, topics) then
        BadgeScan([b.(achieved := true)] + rest.badges, Some(b.(achieved := true)))
      else
        BadgeScan([b] + rest.badges, rest.firstUnlocked)
  }

  /**
   The announced badge is the first one in list order that unlocks, and
   nothing is announced exactly when no badge unlocks.
   */
  lemma {:induction false} ScanAnnouncesFirst(bs: seq<Badge>, xp: int, level: int, topics: int)
    ensures var r := ScanBadges(bs, xp, level, topics);
      r.firstUnlocked.None? <==> (forall i :: 0 <= i < |bs| ==> !Unlocks(bs[i], xp, level, topics))
    ensures var r := ScanBadges(bs, xp, level, topics);
      forall k :: IsFirstUnlock(bs, k, xp, level, topics) ==> r.firstUnlocked == Some(r.badges[k])
  {
    if |bs| > 0 {
      var r := ScanBadges(bs, xp, level, topics);
      var rest := ScanBadges(bs[1..], xp, level, topics);
      ScanAnnouncesFirst(bs[1..], xp, level, topics);
      if Unlocks(bs[0], xp, level, topics) {
        forall k | IsFirstUnlock(bs, k, xp, level, topics)
          ensures r.firstUnlocked == Some(r.badges[k])
        {
          assert k == 0;
        }
      } else {
        forall k | IsFirstUnlock(bs, k, xp, level, topics)
          ensures r.firstUnlocked == Some(r.badges[k])
        {
          assert IsFirstUnlock(bs[1..], k - 1, xp, level, topics);
          assert r.badges[k] == rest.badges[k - 1];
        }
        assert (forall i :: 0 <= i < |bs| ==> !Unlocks(bs[i], xp, level, topics))
          <==> (forall i :: 0 <= i < |bs[1..]| ==> !Unlocks(bs[1..][i], xp, level, topics));
      }
    }
  }

  /** What one call of `addXp` produces: the new record, the level-up toast and the announced badge. */
  datatype XpAward = XpAward(progress: Progress, levelUp: Option<int>, unlocked: Option<Badge>)

  /**
   `addXp(points, activityName)`; the timestamp `new Date().toISOString()` is
   a parameter. The topic rule is checked against `topicsCompleted + 1`
   whichever activity awards the points.
   */
  function AddXp(p: Progress, points: int, activityName: string, timestamp: string): (r: XpAward)
    ensures r.progress.xp == p.xp + points
    ensures r.progress.level >= p.level
    ensures r.progress.level == p.level || r.progress.level == LevelFor(p.xp + points)
    ensures r.levelUp.Some? <==> LevelFor(p.xp + points) > p.level
    ensures r.levelUp.Some? ==> r.levelUp.value == r.progress.level == LevelFor(p.xp + points)
    ensures r.levelUp.None? ==> r.progress.level == p.level
    ensures r.progress.topicsCompleted == p.topicsCompleted
    ensures r.progress.activityLog == [ActivityLogEntry(activityName, points, timestamp)] + p.activityLog
    ensures |r.progress.badges| == |p.badges|
    ensures forall i :: 0 <= i < |p.badges| && p.badges[i].achieved ==> r.progress.badges[i] == p.badges[i]
    ensures forall i :: 0 <= i < |p.badges| && !p.badges[i].achieved ==>
      r.progress.badges[i] == p.badges[i].(achieved :=
        Holds(RuleOf(p.badges[i].id), p.xp + points, LevelFor(p.xp + points), p.topicsCompleted + 1))
    ensures r.unlocked.None? ==> r.progress.badges == p.badges
    ensures r.unlocked.None? <==>
      (forall i :: 0 <= i < |p.badges| ==>
        !Unlocks(p.badges[i], p.xp + points, LevelFor(p.xp + points), p.topicsCompleted + 1))
    ensures forall k :: IsFirstUnlock(p.badges, k, p.xp + points, LevelFor(p.xp + points), p.topicsCompleted + 1) ==>
      r.unlocked == Some(r.progress.badges[k])
  {
    var newXp := p.xp + points;
    var newLevel := LevelFor(newXp);
    var levelUp := newLevel > p.level;
    var scan := ScanBadges(p.badges, newXp, newLevel, p.topicsCompleted + 1);
    ScanAnnouncesFirst(p.badges, newXp, newLevel, p.topicsCompleted + 1);
    var changed := scan.firstUnlocked.Some?;
    assert !changed ==> scan.badges == p.badges;
    XpAward(
      Progress(
        newXp,
        if levelUp then newLevel else p.level,
        p.topicsCompleted,
        if changed then scan.badges else p.badges,
        [ActivityLogEntry(activityName, points, timestamp)] + p.activityLog),
      if levelUp then Some(newLevel) else None,
      scan.firstUnlocked)
  }

  /** Every badge achieved before is still achieved after, and nothing but `achieved` changes. */
  predicate AchievedGrows(before: seq<Badge>, after: seq<Badge>) {
    && |after| == |before|
    && forall i :: 0 <= i < |before| ==>
         after[i] == before[i].(achieved := after[i].achieved) && (before[i].achieved ==> after[i].achieved)
  }

  lemma AchievedGrowsTransitive(a: seq<Badge>, b: seq<Badge>, c: seq<Badge>)
    requires AchievedGrows(a, b) && AchievedGrows(b, c)
    ensures AchievedGrows(a, c)
  {
    forall i | 0 <= i < |a|
      ensures c[i] == a[i].(achieved := c[i].achieved)
    {
      assert b[i] == a[i].(achieved := b[i].achieved);
    }
  }

  /** With non-negative points the engine keeps the level equal to floor(xp / 200) + 1. */
  lemma AddXpKeepsLevelConsistent(p: Progress, points: int, activityName: string, timestamp: string)
    requires LevelConsistent(p) && points >= 0
    ensures LevelConsistent(AddXp(p, points, activityName, timestamp).progress)
    ensures AddXp(p, points, activityName, timestamp).levelUp.Some? <==> LevelFor(p.xp + points) != p.level
  {
    DivisionMonotone(p.xp, p.xp + points);
  }

  lemma DivisionMonotone(a: int, b: int)
    requires a <= b
    ensures LevelFor(a) <= LevelFor(b)
  {
  }

  /** One award from the activity log's point of view. */
  datatype Award = Award(points: int, activityName: string, timestamp: string)

  /** The progress after a sequence of `addXp` calls, in order. */
  function AddXpAll(p: Progress, awards: seq<Award>): Progress
    decreases |awards|
  {
    if |awards| == 0 then p
    else AddXpAll(AddXp(p, awards[0].points, awards[0].activityName, awards[0].timestamp).progress, awards[1..])
  }

  function TotalPoints(awards: seq<Award>): int {
    if |awards| == 0 then 0 else awards[0].points + TotalPoints(awards[1..])
  }

  /** The log entries a sequence of awards leaves, most recent first. */
  function LogEntries(awards: seq<Award>): seq<ActivityLogEntry> {
    if |awards| == 0 then []
    else LogEntries(awards[1..]) + [ActivityLogEntry(awards[0].activityName, awards[0].points, awards[0].timestamp)]
  }

  /**
   Across any sequence of non-negative awards: the XP total adds up, the level
   stays floor(xp / 200) + 1 and never falls, achieved badges stay achieved,
   the topic count is untouched, and the log gains exactly the new entries in
   front of the old log.
   */
  lemma {:induction false} AwardsKeepInvariants(p: Progress, awards: seq<Award>)
    requires LevelConsistent(p)
    requires forall i :: 0 <= i < |awards| ==> awards[i].points >= 0
    ensures LevelConsistent(AddXpAll(p, awards))
    ensures AddXpAll(p, awards).xp == p.xp + TotalPoints(awards)
    ensures AddXpAll(p, awards).level >= p.level
    ensures AddXpAll(p, awards).topicsCompleted == p.topicsCompleted
    ensures AchievedGrows(p.badges, AddXpAll(p, awards).badges)
    ensures AddXpAll(p, awards).activityLog == LogEntries(awards) + p.activityLog
    decreases |awards|
  {
    if |awards| == 0 {
      assert AddXpAll(p, awards) == p;
    } else {
      var a := awards[0];
      var q := AddXp(p, a.points, a.activityName, a.timestamp).progress;
      AddXpKeepsLevelConsistent(p, a.points, a.activityName, a.timestamp);
      AwardsKeepInvariants(q, awards[1..]);
      AchievedGrowsTransitive(p.badges, q.badges, AddXpAll(q, awards[1..]).badges);
      var e := ActivityLogEntry(a.activityName, a.points, a.timestamp);
      calc {
        AddXpAll(p, awards).activityLog;
        AddXpAll(q, awards[1..]).activityLog;
        LogEntries(awards[1..]) + ([e] + p.activityLog);
        (LogEntries(awards[1..]) + [e]) + p.activityLog;
        LogEntries(awards) + p.activityLog;
      }
    }
  }

  /** After a call, no badge unlocks any more for the figures that call evaluated. */
  lemma AwardSettles(p: Progress, points: int, activityName: string, timestamp: string)
    ensures var q := AddXp(p, points, activityName, timestamp).progress;
      forall i :: 0 <= i < |q.badges| ==> !Unlocks(q.badges[i], p.xp + points, LevelFor(p.xp + points), p.topicsCompleted + 1)
  {
  }

  /** A call that finds no badge to unlock and no level to reach changes neither. */
  lemma IdleCall(q: Progress, points: int, activityName: string, timestamp: string)
    requires LevelFor(q.xp + points) <= q.level
    requires forall i :: 0 <= i < |q.badges| ==> !Unlocks(q.badges[i], q.xp + points, LevelFor(q.xp + points), q.topicsCompleted + 1)
    ensures var r := AddXp(q, points, activityName, timestamp);
      r.unlocked.None? && r.levelUp.None? && r.progress.badges == q.badges && r.progress.level == q.level
  {
  }

  /**
   Re-evaluating with unchanged figures is idle: a second call that adds no
   points after any call announces no badge, changes no badge and raises no level.
   */
  lemma ReevaluationIsIdle(p: Progress, points: int, activityName: string, timestamp: string, again: string)
    requires LevelConsistent(p) && points >= 0
    ensures var q := AddXp(p, points, activityName, timestamp).progress;
      var r := AddXp(q, 0, activityName, again);
      r.unlocked.None? && r.levelUp.None? && r.progress.badges == q.badges && r.progress.level == q.level
  {
    var q := AddXp(p, points, activityName, timestamp).progress;
    AddXpKeepsLevelConsistent(p, points, activityName, timestamp);
    AwardSettles(p, points, activityName, timestamp);
    assert q.xp + 0 == p.xp + points && q.topicsCompleted == p.topicsCompleted;
    IdleCall(q, 0, activityName, again);
  }

  /**
   The topic rule looks one topic ahead whatever the activity: the very first
   flashcard session of a new learner already unlocks and announces "topic_1".
   */
  lemma FirstFlashcardSessionUnlocksFirstTopic(activityName: string, timestamp: string)
    ensures var r := AddXp(InitialProgress, XpPerFlashcardSession, activityName, timestamp);
      && r.unlocked == Some(InitialBadges[0].(achieved := true))
      && r.progress.badges[0].achieved
      && r.progress.topicsCompleted == 0
  {
    TableRulesFromIds();
    var r := AddXp(InitialProgress, XpPerFlashcardSession, activityName, timestamp);
    assert Unlocks(InitialBadges[0], 50, LevelFor(50), 1);
    assert IsFirstUnlock(InitialBadges, 0, 50, LevelFor(50), 1);
  }

  /** From 0 XP at level 1, 50 XP and then 150 XP reach 200 XP and level 2, with one level-up, at the second call. */
  lemma TwoAwardsLevelUpOnce(p: Progress, n1: string, t1: string, n2: string, t2: string)
    requires p.xp == 0 && p.level == 1
    ensures var r1 := AddXp(p, 50, n1, t1);
      var r2 := AddXp(r1.progress, 150, n2, t2);
      && r1.levelUp.None? && r2.levelUp == Some(2)
      && r2.progress.xp == 200 && r2.progress.level == 2
  {
  }
}

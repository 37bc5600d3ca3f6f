/**
 The static gamification data (constants.tsx): the twenty-badge table the
 session starts from, and the three XP constants.
 */
module Constants {
  import opened Types
  import opened BadgeRules

  const XpPerFlashcardSession: int := 50
  const XpPerQuizCorrectAnswer: int := 20
  const XpToLevelUp: int := 200

  const ChallengePrefix: string := "challenge_"

  /** INITIAL_BADGES, in table order; icons are not modelled. */
  const InitialBadges: seq<Badge> := [
    Badge("topic_1", "Primera Entrega", "Completaste tu primer tema.", Topics, false),
    Badge("topic_5", "Ritmo Constante", "Completaste 5 temas.", Topics, false),
    Badge("topic_10", "Compulsivo", "Completaste 10 temas.", Topics, false),
    Badge("topic_20", "Maratón de estudio", "Completaste 20 temas.", Topics, false),
    Badge("topic_50", "Mente brillante", "Completaste 50 temas.", Topics, false),
    Badge("xp_130", "Primer paso", "Alcanzaste 130 XP.", XpTotal, false),
    Badge("xp_500", "Explorador", "Alcanzaste 500 XP.", XpTotal, false),
    Badge("xp_1000", "Avanzado", "Alcanzaste 1.000 XP.", XpTotal, false),
    Badge("xp_2000", "Maestro", "Alcanzaste 2.000 XP.", XpTotal, false),
    Badge("xp_5000", "Leyenda", "Alcanzaste 5.000 XP.", XpTotal, false),
    Badge("level_2", "Nivelado", "Alcanzaste Nivel 2.", Levels, false),
    Badge("level_4", "Ascendente", "Alcanzaste Nivel 4.", Levels, false),
    Badge("level_6", "Avanzado", "Alcanzaste Nivel 6.", Levels, false),
    Badge("level_10", "Experto", "Alcanzaste Nivel 10.", Levels, false),
    Badge("level_15", "Imparable", "Alcanzaste Nivel 15.", Levels, false),
    Badge("challenge_streak", "Racha activa", "Estudiaste 3 días seguidos.", Challenges, false),
    Badge("challenge_daily", "Contrarreloj", "Completaste 3 temas en un solo día.", Challenges, false),
    Badge("challenge_top3", "Competidor", "Entraste al Top 3 del ranking.", Challenges, false),
    Badge("challenge_5_badges", "Estratega", "Desbloqueaste 5 insignias diferentes.", Challenges, false),
    Badge("challenge_all_badges", "Dominador", "Desbloqueaste todas las insignias.", Challenges, false)
  ]

  /** The typed rule each table entry stands for, written independently of the ids. */
  const TableRules: seq<BadgeRule> := [
    TopicsAtLeast(1), TopicsAtLeast(5), TopicsAtLeast(10), TopicsAtLeast(20), TopicsAtLeast(50),
    XpAtLeast(130), XpAtLeast(500), XpAtLeast(1000), XpAtLeast(2000), XpAtLeast(5000),
    LevelAtLeast(2), LevelAtLeast(4), LevelAtLeast(6), LevelAtLeast(10), LevelAtLeast(15),
    Challenge, Challenge, Challenge, Challenge, Challenge
  ]

  /** The id prefix each category's badges carry. */
  function CategoryPrefix(c: BadgeCategory): string {
    match c
    case Topics => TopicPrefix
    case XpTotal => XpPrefix
    case Levels => LevelPrefix
    case Challenges => ChallengePrefix
  }

  /** The category a rule belongs to. */
  function RuleCategory(rule: BadgeRule): BadgeCategory {
    match rule
    case XpAtLeast(_) => XpTotal
    case LevelAtLeast(_) => Levels
    case TopicsAtLeast(_) => Topics
    case Challenge => Challenges
  }

  /** Every badge of the table starts locked. */
  lemma InitialBadgesLocked()
    ensures |InitialBadges| == 20
    ensures forall i :: 0 <= i < |InitialBadges| ==> !InitialBadges[i].achieved
  {
  }

  /** Ids that start differently differ, and cannot carry each other's prefix. */
  lemma FirstCharRulesOutPrefix(s: string, p: string)
    requires |s| > 0 && |p| > 0 && s[0] != p[0]
    ensures !StartsWith(s, p)
  {
    if |p| <= |s| {
      assert s[..|p|][0] != p[0];
    }
  }

  /** Each numeric entry's id is its rule written out: the id suffix is the threshold. */
  lemma NumericIdsSpellRules()
    ensures |TableRules| == |InitialBadges|
    ensures forall i :: 0 <= i < 15 ==> !TableRules[i].Challenge? && InitialBadges[i].id == IdOf(TableRules[i])
  {
    assert DecimalText(1) == "1";
    assert DecimalText(2) == "2";
    assert DecimalText(4) == "4";
    assert DecimalText(5) == "5";
    assert DecimalText(6) == "6";
    assert DecimalText(10) == "10";
    assert DecimalText(15) == "15";
    assert DecimalText(20) == "20";
    assert DecimalText(50) == "50";
    assert DecimalText(130) == "130";
    assert DecimalText(500) == "500";
    assert DecimalText(1000) == "1000";
    assert DecimalText(2000) == "2000";
    assert DecimalText(5000) == "5000";
  }

  /** The last five entries are the challenges, all with the challenge prefix and a 'c' in front. */
  lemma ChallengeEntries()
    ensures forall i :: 0 <= i < |InitialBadges| ==> (InitialBadges[i].category == Challenges <==> 15 <= i)
    ensures forall i :: 15 <= i < |InitialBadges| ==> InitialBadges[i].id[0] == 'c'
    ensures forall i :: 15 <= i < |InitialBadges| ==> TableRules[i] == Challenge
  {
  }

  /** The engine reads exactly the intended rule from every id of the table. */
  lemma TableRulesFromIds()
    ensures |TableRules| == |InitialBadges|
    ensures forall i :: 0 <= i < |InitialBadges| ==> RuleOf(InitialBadges[i].id) == TableRules[i]
  {
    NumericIdsSpellRules();
    ChallengeEntries();
    forall i | 0 <= i < |InitialBadges|
      ensures RuleOf(InitialBadges[i].id) == TableRules[i]
    {
      if i < 15 {
        RuleOfIdOf(TableRules[i]);
      } else {
        ChallengeRule(InitialBadges[i].id);
      }
    }
  }

  /** An id starting with 'c' carries none of the engine's prefixes, so its rule is `Challenge`. */
  lemma ChallengeRule(id: string)
    requires |id| > 0 && id[0] == 'c'
    ensures !StartsWith(id, XpPrefix) && !StartsWith(id, LevelPrefix) && !StartsWith(id, TopicPrefix)
    ensures RuleOf(id) == Challenge
  {
    FirstCharRulesOutPrefix(id, XpPrefix);
    FirstCharRulesOutPrefix(id, LevelPrefix);
    FirstCharRulesOutPrefix(id, TopicPrefix);
  }

  /** No two badges of the table share an id. */
  lemma InitialBadgeIdsDistinct()
    ensures forall i, j :: 0 <= i < j < |InitialBadges| ==> InitialBadges[i].id != InitialBadges[j].id
  {
    TableRulesFromIds();
    ChallengeEntries();
    forall i, j | 0 <= i < j < |InitialBadges|
      ensures InitialBadges[i].id != InitialBadges[j].id
    {
      if j < 15 {
        assert TableRules[i] != TableRules[j];
      } else if i < 15 {
        assert TableRules[i] != TableRules[j];
      } else {
        assert |InitialBadges[i].id| != |InitialBadges[j].id|;
      }
    }
  }

  /** What follows "challenge_" in each challenge id, in table order. */
  const ChallengeSuffixes: seq<string> := ["streak", "daily", "top3", "5_badges", "all_badges"]

  lemma PrefixOfConcat(p: string, rest: string)
    ensures StartsWith(p + rest, p)
  {
    assert (p + rest)[..|p|] == p;
  }

  /** The category column agrees with the rule column, and challenge ids are the prefix plus a suffix. */
  lemma CategoryColumn()
    ensures forall i :: 0 <= i < |InitialBadges| ==> InitialBadges[i].category == RuleCategory(TableRules[i])
    ensures forall i :: 15 <= i < |InitialBadges| ==> InitialBadges[i].id == ChallengePrefix + ChallengeSuffixes[i - 15]
  {
  }

  /** A badge's category agrees with its id prefix and with the kind of rule the engine reads. */
  lemma CategoryAgreesWithPrefix()
    ensures forall i :: 0 <= i < |InitialBadges| ==>
      StartsWith(InitialBadges[i].id, CategoryPrefix(InitialBadges[i].category))
    ensures forall i :: 0 <= i < |InitialBadges| ==>
      RuleCategory(RuleOf(InitialBadges[i].id)) == InitialBadges[i].category
  {
    TableRulesFromIds();
    NumericIdsSpellRules();
    CategoryColumn();
    forall i | 0 <= i < |InitialBadges|
      ensures StartsWith(InitialBadges[i].id, CategoryPrefix(InitialBadges[i].category))
    {
      var p := CategoryPrefix(InitialBadges[i].category);
      if i < 15 {
        var rule := TableRules[i];
        var ds := DecimalText(rule.threshold);
        assert InitialBadges[i].id == p + ds by {
          assert InitialBadges[i].id == IdOf(rule);
        }
        PrefixOfConcat(p, ds);
      } else {
        PrefixOfConcat(p, ChallengeSuffixes[i - 15]);
      }
    }
  }

  /** Challenge badges carry none of the three engine prefixes, so no call of the engine satisfies them. */
  lemma ChallengesNeverHold()
    ensures forall i :: 0 <= i < |InitialBadges| && InitialBadges[i].category == Challenges ==>
      && !StartsWith(InitialBadges[i].id, XpPrefix)
      && !StartsWith(InitialBadges[i].id, LevelPrefix)
      && !StartsWith(InitialBadges[i].id, TopicPrefix)
    ensures forall i, xp, level, topics :: 0 <= i < |InitialBadges| && InitialBadges[i].category == Challenges ==>
      !Holds(RuleOf(InitialBadges[i].id), xp, level, topics)
  {
    ChallengeEntries();
    forall i | 0 <= i < |InitialBadges| && InitialBadges[i].category == Challenges
      ensures !StartsWith(InitialBadges[i].id, XpPrefix)
      ensures !StartsWith(InitialBadges[i].id, LevelPrefix)
      ensures !StartsWith(InitialBadges[i].id, TopicPrefix)
      ensures RuleOf(InitialBadges[i].id) == Challenge
    {
      ChallengeRule(InitialBadges[i].id);
    }
  }

  /** Within a category, thresholds strictly increase in table order. */
  lemma ThresholdsIncrease()
    ensures forall i, j ::
      (0 <= i < j < |TableRules| && !TableRules[i].Challenge?
       && RuleCategory(TableRules[i]) == RuleCategory(TableRules[j])) ==>
      TableRules[i].threshold < TableRules[j].threshold
  {
  }
}

/**
 Display classifiers shared by the dashboard and the leaderboard
 (src/utils/uiHelpers.ts, copied inline in App.tsx): the level-name tier,
 the tier icon, and the rank medal.
 */
module UiHelpers {

  /** The four tier icons, lowest tier first. */
  datatype LevelIcon = AcademicCap | BookOpen | Brain | Crown

  /** The four tier names, lowest tier first. */
  const TierNames: seq<string> := ["Principiante", "Intermedio", "Avanzado", "Supremo"]

  /** The tier thresholds (5, 10, 15) as an independent count: how many are reached. */
  function TierIndex(level: int): (t: nat)
    ensures t < 4
  {
    (if level >= 5 then 1 else 0) + (if level >= 10 then 1 else 0) + (if level >= 15 then 1 else 0)
  }

  /** `getLevelName`. */
  function LevelName(level: int): string {
    if level >= 15 then "Supremo"
    else if level >= 10 then "Avanzado"
    else if level >= 5 then "Intermedio"
    else "Principiante"
  }

  /** `getLevelIcon`. */
  function LevelIconFor(level: int): LevelIcon {
    if level >= 15 then Crown
    else if level >= 10 then Brain
    else if level >= 5 then BookOpen
    else AcademicCap
  }

  function IconTier(icon: LevelIcon): nat {
    match icon
    case AcademicCap => 0
    case BookOpen => 1
    case Brain => 2
    case Crown => 3
  }

  /** The name is the tier name of the number of thresholds reached, so the function is total with four outcomes. */
  lemma LevelNameTiers(level: int)
    ensures LevelName(level) == TierNames[TierIndex(level)]
    ensures LevelName(level) in TierNames
  {
  }

  /** The tier never drops as the level grows. */
  lemma LevelNameMonotone(a: int, b: int)
    requires a <= b
    ensures TierIndex(a) <= TierIndex(b)
    ensures LevelName(b) == LevelName(a) || TierIndex(a) < TierIndex(b)
  {
  }

  /** The icon and the name always show the same tier. */
  lemma IconMatchesName(level: int)
    ensures IconTier(LevelIconFor(level)) == TierIndex(level)
    ensures TierNames[IconTier(LevelIconFor(level))] == LevelName(level)
  {
  }

  /** What `getRankDisplay` shows: a medal glyph or the rank number. */
  datatype RankDisplay = Medal(glyph: string) | Number(rank: int)

  const Gold: string := "🥇"
  const Silver: string := "🥈"
  const Bronze: string := "🥉"

  /** `getRankDisplay`. */
  function RankDisplayFor(rank: int): (d: RankDisplay)
    ensures d.Medal? <==> 1 <= rank <= 3
    ensures d.Number? ==> d.rank == rank
    ensures d.Medal? ==> d.glyph == [Gold, Silver, Bronze][rank - 1]
  {
    if rank == 1 then Medal(Gold)
    else if rank == 2 then Medal(Silver)
    else if rank == 3 then Medal(Bronze)
    else Number(rank)
  }

  /** The three medals are distinct, so ranks 1 to 3 are told apart. */
  lemma MedalsDistinct(a: int, b: int)
    requires 1 <= a <= 3 && 1 <= b <= 3 && a != b
    ensures RankDisplayFor(a) != RankDisplayFor(b)
  {
    var medals := [Gold, Silver, Bronze];
    assert medals[a - 1] != medals[b - 1] by {
      assert Gold[0] != Silver[0] && Gold[0] != Bronze[0] && Silver[0] != Bronze[0];
    }
  }
}

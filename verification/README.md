# Sabelotodo study game: gamification and session flow in Dafny

Sabelotodo is a study app. A learner picks a subject, or uploads files. A
generative service writes a syllabus, flashcards and a quiz for each topic.
Studying earns XP: 50 XP per finished flashcard session and 20 XP per correct
quiz answer. Every 200 XP is a level. Badges unlock at XP, level and
completed-topic thresholds. A leaderboard ranks the learner against a fixed
roster.

This project models the game's core as immutable datatypes and pure functions, and proves properties of them. The core covered:

- the XP and badge engine (`addXp`);
- the badge table and the rule the engine reads from each badge id;
- the quiz scoring and results message;
- the quiz and flashcard screens' state machines;
- the dashboard's level progress and badge grouping;
- the leaderboard's stable ranking and current-user lookup;
- the compact leaderboard's hint and highlight;
- the application's request handlers and view selection.

Modules, one per component of the program:

| module | file | models |
|---|---|---|
| `Types` | types.dfy | the records of `src/types.ts` |
| `BadgeRules` | badge_rules.dfy | how the engine reads a rule from a badge id (`startsWith`, `split('_')[1]`, `parseInt`) |
| `Constants` | constants.dfy | `constants.tsx`: the 20-badge table and the XP constants |
| `Progression` | progression.dfy | `addXp`: XP, level, activity log, badge unlocking |
| `UiHelpers` | ui_helpers.dfy | level names and icons, rank medals |
| `Scoring` | results.dfy | the results screen: correct count, percentage, message, suggestion text |
| `QuizCursor` | quiz_cursor.dfy | the quiz screen: answer locking and question advance |
| `CardCursor` | card_cursor.dfy | the flashcard screen: next and previous |
| `Dashboard` | dashboard.dfy | in-level XP and the grouping of badges by category |
| `Leaderboard` | leaderboard.dfy | roster plus learner, stable sort by XP, ranks, current user |
| `CompactLeaderboard` | compact_leaderboard.dfy | the footer's motivational hint and highlighted row |
| `Session` | session.dfy | handlers, view selection, and runs of events |

The repository contains the component twice: `src/App.tsx` with separate
component files, and a single-file `App.tsx` whose handlers, helpers and
components are copied line for line. Both are cited below.

Modelling choices:

- **Asynchronous handlers.** A handler that awaits the generative service is
  split in two. The first step is the synchronous part before the `await`.
  The second step runs when the call settles. Its outcome is a parameter:
  `Ok(value)`, or `Failed(message)` for a thrown value. The message is
  `None` when the thrown value is not an `Error`.
- **Events.** The session is driven by events. An event is *enabled* only
  when the screen that offers it is rendered. The subject, files and topic
  requests settle only while their loading screen shows; the suggestion
  request, which has none, may settle at any time.
- **Leaderboard sort.** The ES2019 `Array.prototype.sort` is stable. It is
  modelled as insertion sort over rows tagged with their input position.
  The result is characterised as the unique arrangement ordered by (XP
  descending, input position ascending).
- **Percentages.** Floating-point percentages become exact rationals.
  Lemmas turn every threshold test into an integer comparison.

Two behaviours of the program as written are stated and proved:

- `Progression.FirstFlashcardSessionUnlocksFirstTopic`: the topic-badge
  rule always looks one topic ahead (`topicsCompleted + 1`). So the very
  first flashcard session unlocks "topic_1" before any quiz is completed.
- `Session.ErrorViewPersists`: once an error message shows, no event the
  screen offers removes it. The error display has no action, and the
  syllabus view that a failed topic request returns to stays hidden behind
  the error.

## Model

| member | source | states |
|---|---|---|
| BadgeRules.LeadingDigits | src/App.tsx:158 | the leading digits `parseInt` reads: a prefix of the text, all digits, followed by a non-digit or the end |
| BadgeRules.ParseInt | src/App.tsx:158 | `parseInt` of the second id field, for text without whitespace, sign or `0x` prefix: NaN exactly when that text is empty or does not start with a digit, otherwise the value of its leading digits |
| BadgeRules.UpToUnderscore | src/App.tsx:158 | the text before the first underscore: a prefix without underscores, followed by `_` or the end |
| BadgeRules.SecondField | src/App.tsx:158 | `split('_')[1]` is undefined exactly when the id has no underscore |
| BadgeRules.DecimalText | constants.tsx:20-38 | the decimal numbers written in the table's ids are non-empty digit strings without underscores |
| BadgeRules.DigitsValueOfDecimalText | constants.tsx:20-38 | reading back the decimal text of a threshold gives the threshold |
| BadgeRules.LeadingDigitsOfDigits | src/App.tsx:158 | a field made only of digits is read whole |
| BadgeRules.UpToUnderscoreOfPlain | src/App.tsx:158 | text without underscores is a single field |
| BadgeRules.Threshold | src/App.tsx:158 | `parseInt(badge.id.split('_')[1])`: no threshold when the id has no second field or that field is NaN; its properties are stated by `SecondFieldAfterPrefix` and `RuleOfIdOf` |
| BadgeRules.RuleOf | src/App.tsx:157-166 | the prefix chain `xp_`, then `level_`, then `topic_`, each with its parsed threshold; any other id (or a NaN threshold) gets no rule; characterised by `RuleOfMatchesPrefix` and `RuleOfIdOf` |
| BadgeRules.Holds | src/App.tsx:157-166 | the comparison the chain applies: `xp >= n`, `newLevel >= n`, `topicsCompleted + 1 >= n`, and never for a badge with no rule |
| BadgeRules.SecondFieldAfterPrefix | src/App.tsx:157-166 | in `xp_N`, `level_N` or `topic_N`, the second field is exactly `N` |
| BadgeRules.RuleOfIdOf | src/App.tsx:157-166 | round trip: the engine reads back every numeric rule from the id that writes it |
| BadgeRules.RuleOfMatchesPrefix | src/App.tsx:157-166 | the prefix chain: a numeric rule comes only from its own prefix; an id with no engine prefix gets no rule; a parsable threshold is the rule's threshold |
| Constants.InitialBadgesLocked | constants.tsx:18-46 | the table has 20 badges and all start locked |
| Constants.NumericIdsSpellRules | constants.tsx:20-38 | each of the 15 numeric entries' id is its rule written out: the suffix is the threshold |
| Constants.ChallengeEntries | constants.tsx:40-45 | exactly the last five entries are challenges, and their ids start with `c` |
| Constants.TableRulesFromIds | constants.tsx:18-46 | the engine reads the intended rule from every id of the table (topics 1, 5, 10, 20, 50; XP 130, 500, 1000, 2000, 5000; levels 2, 4, 6, 10, 15) |
| Constants.ChallengeRule | constants.tsx:41-45 | an id starting with `c` carries no engine prefix and gets no rule |
| Constants.InitialBadgeIdsDistinct | constants.tsx:18-46 | no two badges share an id |
| Constants.CategoryColumn | constants.tsx:11-46 | the category column agrees with the rule kind of every entry, and challenge ids are `challenge_` plus a suffix |
| Constants.CategoryAgreesWithPrefix | constants.tsx:11-46 | every badge's id starts with its category's prefix (`topic_`, `xp_`, `level_`, `challenge_`) and its rule is of its category's kind |
| Constants.ChallengesNeverHold | constants.tsx:41-45 | challenge ids carry none of the engine's prefixes, so no XP, level or topic count unlocks them |
| Constants.ThresholdsIncrease | constants.tsx:20-38 | within a category, thresholds strictly increase in table order |
| Progression.LevelFor | src/App.tsx:140 | `Math.floor(newXp / 200) + 1`: for non-negative XP, the level whose 200-XP band contains the XP |
| Progression.ScanBadges | src/App.tsx:153-173 | the `forEach` over the badges: achieved badges are kept; a locked badge becomes achieved exactly when its rule holds |
| Progression.ScanAnnouncesFirst | src/App.tsx:153-173 | the badge reported is the first one in list order that unlocks, and none is reported exactly when nothing unlocks |
| Progression.AddXp | src/App.tsx:136-180 | xp grows by the points; the level is raised to floor(xp/200)+1 only when that is higher, with a level-up toast exactly then; one log entry goes on top of the old log; badges unlock against (new xp, new level, topics+1); the announced badge is the first unlocked; nothing changes in the badges when none unlocks |
| Progression.AchievedGrowsTransitive | src/App.tsx:153-154 | "achieved badges stay achieved, nothing else changes" composes across calls |
| Progression.AddXpKeepsLevelConsistent | src/App.tsx:140-144 | with non-negative points the stored level stays floor(xp/200)+1, and a level-up is announced exactly when the level changes |
| Progression.AwardsKeepInvariants | src/App.tsx:136-180 | over any sequence of non-negative awards: xp is the sum, the level matches the xp and never falls, achieved badges stay achieved, the topic count is untouched, and the log holds exactly the new entries, newest first, above the old log |
| Progression.AwardSettles | src/App.tsx:153-173 | after a call, no badge unlocks any more for the figures that call evaluated |
| Progression.IdleCall | src/App.tsx:140-179 | a call that reaches no new level and unlocks no badge changes neither level nor badges and announces nothing |
| Progression.ReevaluationIsIdle | src/App.tsx:136-180 | a second call with no points after any call announces nothing and changes no badge or level |
| Progression.FirstFlashcardSessionUnlocksFirstTopic | src/App.tsx:163-165 | the first 50 XP flashcard award of a new learner unlocks and announces "topic_1" while no topic is completed |
| Progression.TwoAwardsLevelUpOnce | src/App.tsx:137-144 | from 0 XP at level 1, 50 XP then 150 XP reach level 2 with one level-up, at the second call |
| UiHelpers.LevelName | src/utils/uiHelpers.ts:4-9 | `getLevelName`: the names for levels from 15, from 10, from 5 and below; characterised by `LevelNameTiers` |
| UiHelpers.LevelIconFor | src/utils/uiHelpers.ts:11-17 | `getLevelIcon`: the icons for the same bands; tied to the name by `IconMatchesName` |
| UiHelpers.LevelNameTiers | src/utils/uiHelpers.ts:4-9 | the level name is the tier name of the number of thresholds (5, 10, 15) reached; four outcomes, total |
| UiHelpers.LevelNameMonotone | src/utils/uiHelpers.ts:4-9 | the tier never drops as the level grows |
| UiHelpers.IconMatchesName | src/utils/uiHelpers.ts:11-17 | the icon tier always equals the name tier |
| UiHelpers.RankDisplayFor | src/utils/uiHelpers.ts:19-24 | ranks 1 to 3 show a medal, in gold, silver, bronze order; every other rank shows itself |
| UiHelpers.MedalsDistinct | src/utils/uiHelpers.ts:19-24 | the three medals are pairwise distinct |
| Scoring.CorrectCount | src/components/ResultsView.tsx:14-17 | the correct count is at most the number of questions |
| Scoring.CorrectCountIsCardinality | src/components/ResultsView.tsx:14-16 | the count is the number of positions whose recorded answer is the correct option |
| Scoring.AllCorrectIffFullCount | src/components/ResultsView.tsx:14-17 | the count equals the number of questions exactly when every question is answered correctly |
| Scoring.NullAnswersNeverCount | src/components/ResultsView.tsx:15 | null or missing answers never count: padding the answers with nulls leaves the count unchanged |
| Scoring.ScorePercentage | src/components/ResultsView.tsx:18 | `total > 0 ? (correct / total) * 100 : 0`: a count within the total gives a percentage in [0, 100], and a full count gives exactly 100 |
| Scoring.MessageFor | src/components/ResultsView.tsx:20-25 | the message chosen by the thresholds 100 (exact), 75 and 50; characterised in integers by `MessageByCounts` |
| Scoring.PercentageTimesTotal | src/components/ResultsView.tsx:18 | for a non-empty quiz, percentage times total is 100 times the count |
| Scoring.PercentageComparison | src/components/ResultsView.tsx:18-25 | comparing the percentage with a threshold is comparing 100 × count with threshold × total |
| Scoring.MessageByCounts | src/components/ResultsView.tsx:18-25 | the message in integers: perfect iff all correct; excellent iff not all and 4c ≥ 3t; not bad iff 4c < 3t and 2c ≥ t; encouragement iff the quiz is empty or 2c < t |
| Scoring.EmptyQuizEncourages | src/components/ResultsView.tsx:17-24 | an empty quiz scores 0 and gets the lowest message |
| Scoring.MessageMonotone | src/components/ResultsView.tsx:20-25 | one more correct answer never gives a lower message |
| Scoring.SuggestionText | src/components/ResultsView.tsx:50 | an empty suggestion shows the placeholder, any other is shown as is |
| QuizCursor.Start | src/components/QuizView.tsx:5-8 | the quiz starts at question 0 with one null answer per question and no selection or feedback |
| QuizCursor.SelectOption | src/components/QuizView.tsx:12-22 | a pick while feedback shows is ignored; otherwise it records the option in the current slot only and sets feedback, correct exactly when the option is the correct answer |
| QuizCursor.NextQuestion | src/components/QuizView.tsx:24-32 | "next" advances with selection and feedback cleared exactly when a question remains, else hands over the answers unchanged |
| QuizCursor.StartValid | src/components/QuizView.tsx:5-8 | the initial state of a non-empty quiz satisfies the screen invariant |
| QuizCursor.SelectKeepsValid | src/components/QuizView.tsx:12-22 | a pick keeps the invariant, writes only the current slot and never overwrites a given answer |
| QuizCursor.NextKeepsValid | src/components/QuizView.tsx:24-32 | "next", shown only with feedback, keeps the invariant or completes at the last question with every answer given |
| QuizCursor.RunQuizSound | src/components/QuizView.tsx:12-32 | over any interactions the invariant holds, and a completed quiz hands over one non-null answer per question |
| CardCursor.NextCard | src/components/StudySession.tsx:9-15 | "next" moves one card forward, or completes the session on the last card; the index stays in the deck |
| CardCursor.PrevCard | src/components/StudySession.tsx:17-21 | "previous" moves one card back, except on the first card; the index stays in the deck |
| CardCursor.RunCardsStaysInDeck | src/components/StudySession.tsx:9-25 | over any presses the index stays in the deck, and a completion needs at least as many "next" presses as cards from the start index to the end |
| Dashboard.CurrentLevelXp | src/components/ProgressDashboard.tsx:14 | the in-level XP plus (level−1)·200 is the XP total |
| Dashboard.CurrentLevelXpInRange | src/components/ProgressDashboard.tsx:13-15 | when the level matches the XP, the in-level XP is xp mod 200, in [0, 200) |
| Dashboard.GroupBadges | src/components/ProgressDashboard.tsx:17-26 | the `reduce` that groups badges by category, one badge at a time; characterised by `GroupBadgesCategories`, `GroupBadgesFilters` and `GroupBadgesPermutation` |
| Dashboard.GroupBadgesCategories | src/components/ProgressDashboard.tsx:17-26 | the groups' keys are the categories in order of first appearance, as `Object.keys` lists them |
| Dashboard.CategoriesInOrderDistinct | src/components/ProgressDashboard.tsx:82 | the listed categories are distinct and are exactly those that occur |
| Dashboard.GroupBadgesFilters | src/components/ProgressDashboard.tsx:17-26 | each group holds exactly its category's badges, in list order |
| Dashboard.GroupBadgesPermutation | src/components/ProgressDashboard.tsx:17-26 | the groups together hold the same badges as the list |
| Leaderboard.DisplayName | src/App.tsx:287 | `username \|\| 'Tú'`: a missing or empty name shows as "Tú", any other as itself |
| Leaderboard.Combined | src/App.tsx:287-288 | the mock roster followed by the learner's row under the display name, with the learner's level and XP |
| Leaderboard.Insert | src/App.tsx:290-292 | insertion keeps the rows and adds the new one |
| Leaderboard.SortEntries | src/App.tsx:290-292 | the sort is a permutation of its input |
| Leaderboard.InsertOrdered | src/App.tsx:290-292 | inserting a row that comes later in the input than every sorted row keeps the list ordered by XP, ties in input order |
| Leaderboard.SortEntriesOrdered | src/App.tsx:290-292 | the sort orders by XP descending, ties in input order (stability) |
| Leaderboard.OrderedPermutationUnique | src/App.tsx:290-292 | only one arrangement of a set of rows is ordered that way, so the stable sort is determined |
| Leaderboard.LeaderboardData | src/App.tsx:286-295 | `leaderboardData`: one row per roster player plus the learner, ranked 1, 2, ... in list order |
| Leaderboard.LeaderboardDataSpec | src/App.tsx:286-295 | the board has 13 rows ranked 1 to 13 in list order, XP non-increasing, and it equals the ranking of any ordered arrangement of roster plus learner |
| Leaderboard.LearnerListed | src/App.tsx:286-295 | the learner's own row is always on the board |
| Leaderboard.LearnerRankExtremes | src/App.tsx:286-295 | more XP than everyone on the roster ranks the learner 1; less than everyone ranks the learner 13 |
| Leaderboard.LearnerRankExamples | src/App.tsx:28-41 | with 3060 XP the learner is first, above the 3050 XP leader; with 100 XP last |
| Leaderboard.FindIndex | src/components/CompactLeaderboard.tsx:7 | `findIndex`: the first row with the name, or −1 exactly when no row has it |
| Leaderboard.CurrentUser | src/App.tsx:297-299 | the first row with the learner's display name, or a rank-0 row of the learner's own figures when none |
| Leaderboard.CurrentUserOnLeaderboard | App.tsx:1080-1082 | on the real board the learner is always found, ranked 1 to 13; with a name no roster entry has, the found row carries the learner's own level and XP |
| CompactLeaderboard.MotivationalHint | src/components/CompactLeaderboard.tsx:10-23 | the overtake hint appears exactly when the learner is below the top and the row above has strictly more XP, with the gap and that row's name; the cheer appears exactly when the learner is first of more than one row |
| CompactLeaderboard.Highlighted | src/components/CompactLeaderboard.tsx:51-53 | a row is highlighted when its rank is the rank of the learner's row, and none is when that row is missing |
| CompactLeaderboard.HighlightIsLearnerRow | src/components/CompactLeaderboard.tsx:7 | with ranks 1, 2, ... in list order, exactly the row `findIndex` finds is highlighted, and none when it finds nothing |
| CompactLeaderboard.FooterOnLeaderboard | src/components/CompactLeaderboard.tsx:7-23 | on the real board exactly the learner's row is highlighted, and the line is missing exactly when the learner ties with the row above |
| Session.ErrorText | src/App.tsx:207 | an `Error` shows its message; anything else thrown shows "Ocurrió un error desconocido." |
| Session.TitleText | src/App.tsx:246 | a missing topic prints as "undefined" in activity names |
| Session.SaveName | App.tsx:968-970 | saving a name stores it and changes nothing else |
| Session.StartOver | App.tsx:972-979 | back to subject choice with subject, syllabus, topic, materials and error cleared; progress untouched |
| Session.RequestStarted | App.tsx:981-984 | a syllabus request shows loading with the error cleared, the game state unchanged |
| Session.SyllabusSettled | App.tsx:985-1009 | the shared end of both syllabus requests: success stores the subject and topics and shows the syllabus; failure sets the error, keeping state, subject and syllabus; loading ends, progress untouched |
| Session.SubjectSelectSettled | App.tsx:985-993 | success keeps the chosen subject and its syllabus and shows the syllabus; failure sets the error and keeps the game state; loading ends either way |
| Session.FilesAnalyzeSettled | App.tsx:996-1010 | success keeps the generated subject and its topics and shows the syllabus; failure sets the error and keeps the game state, subject and syllabus; loading ends either way |
| Session.SelectTopicStarted | App.tsx:1012-1015 | the topic is set before the call, with loading on and the error cleared |
| Session.SelectTopicSettled | App.tsx:1016-1025 | success stores the materials and opens study; failure sets the error and returns to the syllabus; the topic stays set either way |
| Session.Award | src/App.tsx:136-180 | the session's progress becomes `addXp`'s, the level toast is raised exactly on a level-up, the badge toast shows the announced badge exactly when one is announced, and nothing else changes |
| Session.FlashcardSessionComplete | App.tsx:1028-1031 | exactly 50 XP with a "Flashcards: title" log entry, topic count unchanged, then the quiz |
| Session.QuizCorrect | App.tsx:1036 | the correct answers counted are the correctly answered positions, or 0 without materials |
| Session.QuizComplete | App.tsx:1033-1044 | answers stored, exactly 20 XP per correct answer with a "Cuestionario: title" entry, one more topic, results shown, suggestion cleared (or the fallback when topic or materials are missing) |
| Session.SuggestionSettled | App.tsx:1044-1050 | the suggestion becomes the advice, or the fixed fallback text when the request fails; nothing else changes |
| Session.PlayAgain | App.tsx:1053-1056 | the quiz again with answers cleared; topic and materials kept |
| Session.BackToSyllabus | App.tsx:1058-1064 | the syllabus with topic, materials, answers and suggestion cleared; subject, syllabus and progress kept |
| Session.Step | App.tsx:966-1064 | each event applies its handler step: user actions their handler, request ends the settled half, completions the award and state change, toast dismissals clear the toast |
| Session.Enabled | src/App.tsx:304-338 | an event happens only on the screen that renders its control: a non-empty name on login, a topic from the syllabus, flashcard and quiz completion only with cards or questions and one non-null answer per question; request ends only while loading; the suggestion at any time |
| Session.RenderView | src/App.tsx:304-338 | no name shows the login; then loading wins over the error, a non-empty error wins over the state; the missing-data message shows exactly for study, quiz or results without topic or materials |
| Session.InitialInv | src/App.tsx:58-77 | the first-render state satisfies the session invariant and shows the login |
| Session.AwardKeepsInv | src/App.tsx:136-180 | an award keeps the level consistent and moves the progress forward |
| Session.StepKeepsInv | App.tsx:966-1064 | every enabled event keeps the invariant (level matches XP, badges are the table with some achieved, study/quiz/results have topic and materials) and never moves progress back |
| Session.RunKeepsInv | App.tsx:966-1064 | any sequence of enabled events keeps the invariant; XP, level and topic count never fall; achieved badges stay achieved |
| Session.NoMissingData | src/App.tsx:322-336 | in a reachable session the state switch never falls back to its missing-data messages |
| Session.ErrorViewPersists | src/App.tsx:312-314 | once an error shows, no enabled event changes the view |
| Session.FailedTopicRequest | App.tsx:1012-1026 | a failed materials request shows the error, with the state back on the syllabus, the topic still set and progress unchanged |
| Session.TopicOpens | App.tsx:1012-1026 | on the syllabus, choosing a listed topic is enabled, its arriving materials are enabled, and they open the study screen of that topic with progress and subject unchanged |
| Session.CardsLeadToQuiz | App.tsx:1028-1031 | finishing the cards on the study screen opens the quiz of the same topic |
| Session.QuizLeadsToResults | App.tsx:1033-1043 | completing the quiz opens its results, with the suggestion still empty |
| Session.StudyRound | App.tsx:1012-1051 | a full round from the syllabus earns 50 + 20 × correct XP, completes one topic, logs the quiz entry above the flashcard entry and shows this topic's results |
| Session.QuizHandOffEnabled | src/components/QuizView.tsx:24-32 | any run of picks and presses on the quiz screen that completes hands over answers the completion event accepts, and completing with them shows the results |
| Session.ReplayCountsAgain | App.tsx:1033-1056 | playing again and completing re-awards the correct answers' XP and counts the topic once more |

## Left out

- Persistence is left out: saving to browser storage and the debounced
  progress upload to a spreadsheet. Restoring a saved session on the first
  render (src/App.tsx:88-103) is not modelled either. That effect restores
  the name, which skips the login, and restores XP, level (`data.level || 1`),
  badges and topic count without checking that the level matches the XP. So
  `Inv` and `RunKeepsInv` cover sessions started from `InitialSession` only.
- `fileToGenerativePart` is left out: base64 file reading is I/O. When a
  read fails, `onloadend` sees a null result and `.split` throws inside the
  callback, so the promise never settles. The files request then stays
  pending and the loading screen stays up. The model allows this, since no
  settle event is ever forced to happen.
- The generative service is a parameter. Only its outcomes are modelled,
  not the prompts or its response parsing.
- Clock and presentation are left out:
  - Timestamps are parameters, not `new Date().toISOString()`.
  - Toast texts are not built; the level toast is its level number.
  - Animation, icons and CSS are not modelled.
  - Modal and panel open/close flags are not modelled.
- BadgeRules.ParseInt: reads leading decimal digits only. `parseInt`'s
  skipping of leading whitespace, its sign handling and its reading of a
  `0x` prefix as hexadecimal (`parseInt("0x")` is NaN, `parseInt("0x5")`
  is 5, where the model gives 0 for both) are not modelled, because no
  badge id contains any of them.
- Scoring.ScorePercentage: exact rational arithmetic instead of IEEE
  doubles. The results message depends only on comparisons at 50, 75 and
  100 percent, and `MessageByCounts` states those exactly in integers.
- The dashboard's progress-bar percentage (`currentLevelXp / 200 × 100`) is
  left out. It is a floating-point display value.
- `INITIAL_BADGES` objects are mutated in place by `badge.achieved = true`
  on a shallow copy of the array. Badges here are values, so that aliasing
  is not reproduced; the next state's badge list is the same.
- The login screen trims the name and refuses an empty one; the enabled
  `SaveName` event requires a non-empty name. Trimming is not modelled.
- The flashcard screen with an empty deck, where the program dereferences
  a missing card, is not modelled. Flashcard completion is enabled only
  with at least one card.
- The quiz screen with an empty quiz, where the program dereferences
  `quiz[0]` on render (src/components/QuizView.tsx:10,53) and crashes, is not
  modelled. Quiz completion is enabled only with at least one question.
- Events that arrive while their screen is hidden, such as a double click
  racing a re-render, are not modelled. The subject, files and topic
  requests each settle at most once, while their loading screen shows. The
  suggestion request has no loading screen: its settling is enabled in
  every state, since a late suggestion can land after "play again".

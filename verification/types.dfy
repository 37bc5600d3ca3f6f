/**
 The records of the study application (src/types.ts), as immutable values.
 Icons and other rendering-only attributes are not part of the model.
 */
module Types {

  /** A value that may be absent (`null` / `undefined` in the application). */
  datatype Option<+T> = None | Some(value: T)

  /** The screen the session is on. */
  datatype GameState = TopicSelection | SyllabusView | Studying | Quiz | Results

  datatype SyllabusTopic = SyllabusTopic(title: string, description: string)

  datatype Flashcard = Flashcard(id: int, question: string, answer: string, translation: Option<string>)

  datatype QuizQuestion = QuizQuestion(question: string, options: seq<string>, correctAnswer: string, explanation: string)

  datatype StudyMaterials = StudyMaterials(flashcards: seq<Flashcard>, quiz: seq<QuizQuestion>)

  /** The four badge categories ('Temas Completados', 'XP Acumulado', 'Niveles Alcanzados', 'Desafíos Especiales'). */
  datatype BadgeCategory = Topics | XpTotal | Levels | Challenges

  datatype Badge = Badge(id: string, name: string, description: string, category: BadgeCategory, achieved: bool)

  datatype LeaderboardUser = LeaderboardUser(rank: int, name: string, level: int, xp: int)

  datatype ActivityLogEntry = ActivityLogEntry(activityName: string, xpGained: int, timestamp: string)

  /** A quiz answer slot: `null` until the question has been answered. */
  type Answer = Option<string>
}

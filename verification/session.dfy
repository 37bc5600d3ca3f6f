/**
 The session flow of the application component (src/App.tsx, and its
 single-file twin App.tsx): the game state, the request handlers, the
 activity handlers that award XP, and the choice of the view to render.

 Every call to the generative service is asynchronous. A handler that makes
 one is split in two steps: the part before the `await` (`...Started`) and
 the part after it settles (`...Settled`), whose outcome is a parameter.
 */
module Session {
  import opened Types
  import opened Constants
  import opened Progression
  import opened Scoring
  import QuizCursor

  /**
   The outcome of a service call: a value, or a thrown value. A thrown
   `Error` carries its message; anything else thrown carries none.
   */
  datatype GenResult<T> = Ok(value: T) | Failed(message: Option<string>)

  const UnknownError: string := "Ocurrió un error desconocido."
  const SuggestionFallback: string := "No se pudo generar un consejo. ¡Pero seguí estudiando!"

  /** `e instanceof Error ? e.message : 'Ocurrió un error desconocido.'`. */
  function ErrorText(message: Option<string>): (t: string)
    ensures message.Some? ==> t == message.value
    ensures message.None? ==> t == UnknownError
  {
    if message.Some? then message.value else UnknownError
  }

  /** A syllabus generated from uploaded files: its subject and topics. */
  datatype GeneratedSyllabus = GeneratedSyllabus(subject: string, topics: seq<SyllabusTopic>)

  /** The component's state that the flow reads and writes. */
  datatype Session = Session(
    username: Option<string>,
    gameState: GameState,
    subject: string,
    syllabus: seq<SyllabusTopic>,
    currentTopic: Option<SyllabusTopic>,
    materials: Option<StudyMaterials>,
    answers: seq<Answer>,
    suggestion: string,
    isLoading: bool,
    error: Option<string>,
    progress: Progress,
    levelToast: Option<int>,
    unlockedBadge: Option<Badge>)

  /** The state on first render, before anything is restored. */
  const InitialSession: Session :=
    Session(None, TopicSelection, "", [], None, None, [], "", false, None, InitialProgress, None, None)

  /** `currentTopic?.title` inside a template literal: a missing topic prints as "undefined". */
  function TitleText(topic: Option<SyllabusTopic>): (t: string)
    ensures topic.Some? ==> t == topic.value.title
    ensures topic.None? ==> t == "undefined"
  {
    if topic.Some? then topic.value.title else "undefined"
  }

  /** `handleSaveName`. */
  function SaveName(s: Session, name: string): (r: Session)
    ensures r.username == Some(name)
    ensures r.(username := s.username) == s
  {
    s.(username := Some(name))
  }

  /** `handleStartOver`: back to subject choice with an empty plan; progress and the rest are kept. */
  function StartOver(s: Session): (r: Session)
    ensures r.gameState == TopicSelection && r.subject == "" && r.syllabus == []
    ensures r.currentTopic.None? && r.materials.None? && r.error.None?
    ensures r.progress == s.progress && r.username == s.username && r.answers == s.answers
    ensures r.suggestion == s.suggestion && r.isLoading == s.isLoading
  {
    s.(gameState := TopicSelection, subject := "", syllabus := [], currentTopic := None, materials := None, error := None)
  }

  /** The synchronous start of `handleSubjectSelect` and `handleFilesAnalyze`: loading, error cleared. */
  function RequestStarted(s: Session): (r: Session)
    ensures r.isLoading && r.error.None?
    ensures r.gameState == s.gameState && r.progress == s.progress && r.currentTopic == s.currentTopic
  {
    s.(isLoading := true, error := None)
  }

  /** The two syllabus requests end the same way: the plan and the syllabus view, or the error in place. */
  function SyllabusSettled(s: Session, result: GenResult<GeneratedSyllabus>): (r: Session)
    ensures !r.isLoading && r.progress == s.progress
    ensures result.Ok? ==>
      r.gameState == SyllabusView && r.subject == result.value.subject && r.syllabus == result.value.topics && r.error == s.error
    ensures result.Failed? ==>
      r.gameState == s.gameState && r.subject == s.subject && r.syllabus == s.syllabus && r.error == Some(ErrorText(result.message))
  {
    match result
    case Ok(g) => s.(subject := g.subject, syllabus := g.topics, gameState := SyllabusView, isLoading := false)
    case Failed(m) => s.(error := Some(ErrorText(m)), isLoading := false)
  }

  /** The end of `handleSubjectSelect`: the chosen subject is kept on success. */
  function SubjectSelectSettled(s: Session, selected: string, result: GenResult<seq<SyllabusTopic>>): (r: Session)
    ensures result.Ok? ==> r.subject == selected && r.syllabus == result.value && r.gameState == SyllabusView
    ensures result.Failed? ==> r.error == Some(ErrorText(result.message)) && r.gameState == s.gameState
    ensures !r.isLoading
  {
    SyllabusSettled(s, match result case Ok(topics) => Ok(GeneratedSyllabus(selected, topics)) case Failed(m) => Failed(m))
  }

  /** The end of `handleFilesAnalyze`: the generated subject is kept on success. */
  function FilesAnalyzeSettled(s: Session, result: GenResult<GeneratedSyllabus>): (r: Session)
    ensures result.Ok? ==>
      r.subject == result.value.subject && r.syllabus == result.value.topics && r.gameState == SyllabusView
    ensures result.Failed? ==>
      && r.error == Some(ErrorText(result.message)) && r.gameState == s.gameState
      && r.subject == s.subject && r.syllabus == s.syllabus
    ensures !r.isLoading
  {
    SyllabusSettled(s, result)
  }

  /** The start of `handleSelectTopic`: the topic is set before the call. */
  function SelectTopicStarted(s: Session, topic: SyllabusTopic): (r: Session)
    ensures r.currentTopic == Some(topic) && r.isLoading && r.error.None?
    ensures r.gameState == s.gameState && r.materials == s.materials && r.progress == s.progress
  {
    s.(currentTopic := Some(topic), isLoading := true, error := None)
  }

  /** The end of `handleSelectTopic`: the materials and the study screen, or the error and the syllabus view. */
  function SelectTopicSettled(s: Session, result: GenResult<StudyMaterials>): (r: Session)
    ensures !r.isLoading && r.currentTopic == s.currentTopic && r.progress == s.progress
    ensures result.Ok? ==> r.gameState == Studying && r.materials == Some(result.value) && r.error == s.error
    ensures result.Failed? ==> r.gameState == SyllabusView && r.materials == s.materials && r.error == Some(ErrorText(result.message))
  {
    match result
    case Ok(m) => s.(materials := Some(m), gameState := Studying, isLoading := false)
    case Failed(msg) => s.(error := Some(ErrorText(msg)), gameState := SyllabusView, isLoading := false)
  }

  /** Applies one `addXp` call and raises the toasts it triggers; a toast already shown stays when none is raised. */
  function Award(s: Session, points: int, activityName: string, timestamp: string): (r: Session)
    ensures r.progress == AddXp(s.progress, points, activityName, timestamp).progress
    ensures r.levelToast == (if LevelFor(s.progress.xp + points) > s.progress.level then Some(r.progress.level) else s.levelToast)
    ensures r.gameState == s.gameState && r.currentTopic == s.currentTopic && r.materials == s.materials
    ensures r.unlockedBadge ==
      (if AddXp(s.progress, points, activityName, timestamp).unlocked.Some?
       then AddXp(s.progress, points, activityName, timestamp).unlocked else s.unlockedBadge)
    ensures r.(progress := s.progress, levelToast := s.levelToast, unlockedBadge := s.unlockedBadge) == s
  {
    var a := AddXp(s.progress, points, activityName, timestamp);
    s.(progress := a.progress,
       levelToast := if a.levelUp.Some? then a.levelUp else s.levelToast,
       unlockedBadge := if a.unlocked.Some? then a.unlocked else s.unlockedBadge)
  }

  /** `handleFlashcardSessionComplete`: 50 XP for the session, then the quiz. */
  function FlashcardSessionComplete(s: Session, timestamp: string): (r: Session)
    ensures r.progress.xp == s.progress.xp + XpPerFlashcardSession
    ensures r.progress.topicsCompleted == s.progress.topicsCompleted
    ensures r.progress.activityLog ==
      [ActivityLogEntry("Flashcards: " + TitleText(s.currentTopic), XpPerFlashcardSession, timestamp)] + s.progress.activityLog
    ensures r.gameState == Quiz && r.currentTopic == s.currentTopic && r.materials == s.materials
    ensures r.username == s.username && r.isLoading == s.isLoading && r.error == s.error
  {
    Award(s, XpPerFlashcardSession, "Flashcards: " + TitleText(s.currentTopic), timestamp).(gameState := Quiz)
  }

  /** `studyMaterials?.quiz.filter(...).length || 0`: no materials count as no correct answers. */
  function QuizCorrect(s: Session, answers: seq<Answer>): (c: nat)
    ensures s.materials.None? ==> c == 0
    ensures s.materials.Some? ==> c == |CorrectIndices(s.materials.value.quiz, answers)|
  {
    if s.materials.Some? then
      CorrectCountIsCardinality(s.materials.value.quiz, answers);
      CorrectCount(s.materials.value.quiz, answers)
    else 0
  }

  /**
   `handleQuizComplete` up to the `await`: the answers are stored, 20 XP per
   correct answer are awarded, one more topic counts as completed and the
   results show. The suggestion is cleared; when the topic or the materials
   are missing the request's arguments throw before it is sent, and the
   fallback text is stored at once.
   */
  function QuizComplete(s: Session, answers: seq<Answer>, timestamp: string): (r: Session)
    ensures r.answers == answers && r.gameState == Results
    ensures r.progress.xp == s.progress.xp + XpPerQuizCorrectAnswer * QuizCorrect(s, answers)
    ensures r.progress.topicsCompleted == s.progress.topicsCompleted + 1
    ensures r.progress.activityLog ==
      [ActivityLogEntry("Cuestionario: " + TitleText(s.currentTopic), XpPerQuizCorrectAnswer * QuizCorrect(s, answers), timestamp)]
        + s.progress.activityLog
    ensures r.suggestion == (if s.currentTopic.Some? && s.materials.Some? then "" else SuggestionFallback)
    ensures r.currentTopic == s.currentTopic && r.materials == s.materials
    ensures r.username == s.username && r.isLoading == s.isLoading && r.error == s.error && r.subject == s.subject
  {
    var points := QuizCorrect(s, answers) * XpPerQuizCorrectAnswer;
    var awarded := Award(s.(answers := answers), points, "Cuestionario: " + TitleText(s.currentTopic), timestamp);
    awarded.(
      progress := awarded.progress.(topicsCompleted := awarded.progress.topicsCompleted + 1),
      gameState := Results,
      suggestion := if s.currentTopic.Some? && s.materials.Some? then "" else SuggestionFallback)
  }

  /** The end of the suggestion request: the advice, or the fallback text when the request fails. */
  function SuggestionSettled(s: Session, result: GenResult<string>): (r: Session)
    ensures result.Ok? ==> r.suggestion == result.value
    ensures result.Failed? ==> r.suggestion == SuggestionFallback
    ensures r.(suggestion := s.suggestion) == s
  {
    s.(suggestion := if result.Ok? then result.value else SuggestionFallback)
  }

  /** `handlePlayAgain`: the same quiz again, answers cleared, topic and materials kept. */
  function PlayAgain(s: Session): (r: Session)
    ensures r.gameState == Quiz && r.answers == []
    ensures r.(gameState := s.gameState, answers := s.answers) == s
  {
    s.(gameState := Quiz, answers := [])
  }

  /** `handleBackToSyllabus`: the syllabus of the same subject, the topic's data cleared. */
  function BackToSyllabus(s: Session): (r: Session)
    ensures r.gameState == SyllabusView && r.currentTopic.None? && r.materials.None? && r.answers == [] && r.suggestion == ""
    ensures r.subject == s.subject && r.syllabus == s.syllabus && r.progress == s.progress && r.error == s.error
  {
    s.(gameState := SyllabusView, currentTopic := None, materials := None, answers := [], suggestion := "")
  }

  /** What the main area shows. `MissingData` is the error display the state switch falls back to. */
  datatype View =
    | Login
    | Loading(text: string)
    | ErrorView(message: string)
    | MainScreen
    | SyllabusScreen(subject: string, syllabus: seq<SyllabusTopic>)
    | StudyScreen(topic: SyllabusTopic, flashcards: seq<Flashcard>)
    | QuizScreen(topic: SyllabusTopic, quiz: seq<QuizQuestion>)
    | ResultsScreen(subject: string, topic: SyllabusTopic, quiz: seq<QuizQuestion>, answers: seq<Answer>, suggestion: string)
    | MissingData(message: string)

  /** `if (!username)`: no name, or the empty name, means the login screen. */
  predicate LoggedIn(s: Session) {
    s.username.Some? && s.username.value != ""
  }

  /** `if (error)`: an empty message is falsy and shows no error. */
  predicate ErrorShown(s: Session) {
    s.error.Some? && s.error.value != ""
  }

  function LoadingText(g: GameState): string {
    match g
    case TopicSelection => "Creando tu plan de estudio..."
    case SyllabusView => "Creando materiales de estudio..."
    case _ => "Generando con IA..."
  }

  /** The login check, then `renderGameState`: loading first, then the error, then the game state. */
  function RenderView(s: Session): (v: View)
    ensures !LoggedIn(s) ==> v == Login
    ensures LoggedIn(s) && s.isLoading ==> v.Loading?
    ensures LoggedIn(s) && !s.isLoading && ErrorShown(s) ==> v == ErrorView(s.error.value)
    ensures v.MissingData? <==>
      LoggedIn(s) && !s.isLoading && !ErrorShown(s) &&
      s.gameState in {Studying, Quiz, Results} && (s.currentTopic.None? || s.materials.None?)
  {
    if !LoggedIn(s) then Login
    else if s.isLoading then Loading(LoadingText(s.gameState))
    else if ErrorShown(s) then ErrorView(s.error.value)
    else match s.gameState
      case TopicSelection => MainScreen
      case SyllabusView => SyllabusScreen(s.subject, s.syllabus)
      case Studying =>
        if s.currentTopic.Some? && s.materials.Some? then StudyScreen(s.currentTopic.value, s.materials.value.flashcards)
        else MissingData("No se encontraron materiales de estudio.")
      case Quiz =>
        if s.currentTopic.Some? && s.materials.Some? then QuizScreen(s.currentTopic.value, s.materials.value.quiz)
        else MissingData("No se encontró el cuestionario.")
      case Results =>
        if s.currentTopic.Some? && s.materials.Some? then
          ResultsScreen(s.subject, s.currentTopic.value, s.materials.value.quiz, s.answers, s.suggestion)
        else MissingData("No se encontraron los resultados.")
  }

  /** Everything that can happen to the session: a user action on the screen shown, or a request settling. */
  datatype Event =
    | SaveNameEvent(name: string)
    | StartOverEvent
    | SubjectSelectStart
    | SubjectSelectEnd(selected: string, topics: GenResult<seq<SyllabusTopic>>)
    | FilesAnalyzeStart
    | FilesAnalyzeEnd(generated: GenResult<GeneratedSyllabus>)
    | SelectTopicStart(topic: SyllabusTopic)
    | SelectTopicEnd(materials: GenResult<StudyMaterials>)
    | FlashcardsDone(timestamp: string)
    | QuizDone(answers: seq<Answer>, timestamp: string)
    | SuggestionEnd(suggestion: GenResult<string>)
    | PlayAgainEvent
    | BackToSyllabusEvent
    | DismissLevelToast
    | DismissBadgeToast

  function Step(s: Session, e: Event): Session {
    match e
    case SaveNameEvent(name) => SaveName(s, name)
    case StartOverEvent => StartOver(s)
    case SubjectSelectStart => RequestStarted(s)
    case SubjectSelectEnd(selected, topics) => SubjectSelectSettled(s, selected, topics)
    case FilesAnalyzeStart => RequestStarted(s)
    case FilesAnalyzeEnd(generated) => FilesAnalyzeSettled(s, generated)
    case SelectTopicStart(topic) => SelectTopicStarted(s, topic)
    case SelectTopicEnd(materials) => SelectTopicSettled(s, materials)
    case FlashcardsDone(timestamp) => FlashcardSessionComplete(s, timestamp)
    case QuizDone(answers, timestamp) => QuizComplete(s, answers, timestamp)
    case SuggestionEnd(suggestion) => SuggestionSettled(s, suggestion)
    case PlayAgainEvent => PlayAgain(s)
    case BackToSyllabusEvent => BackToSyllabus(s)
    case DismissLevelToast => s.(levelToast := None)
    case DismissBadgeToast => s.(unlockedBadge := None)
  }

  /**
   When an event can happen: a user action needs the screen that offers it
   (the login screen takes a non-empty name; a topic comes from the
   syllabus; the flashcard screen completes only with cards; the quiz screen,
   which shows its first question, completes only with questions and hands
   over one non-null answer per question), a request settles only while its
   loading screen shows, the suggestion may settle at any time, and a toast
   is dismissed while it shows.
   */
  predicate Enabled(s: Session, e: Event) {
    var v := RenderView(s);
    match e
    case SaveNameEvent(name) => v == Login && name != ""
    case StartOverEvent => v.SyllabusScreen?
    case SubjectSelectStart => v == MainScreen
    case FilesAnalyzeStart => v == MainScreen
    case SubjectSelectEnd(_, _) => s.isLoading && s.gameState == TopicSelection
    case FilesAnalyzeEnd(_) => s.isLoading && s.gameState == TopicSelection
    case SelectTopicStart(topic) => v.SyllabusScreen? && topic in s.syllabus
    case SelectTopicEnd(_) => s.isLoading && s.gameState == SyllabusView
    case FlashcardsDone(_) => v.StudyScreen? && |v.flashcards| > 0
    case QuizDone(answers, _) =>
      v.QuizScreen? && |v.quiz| > 0 && |answers| == |v.quiz| && forall i :: 0 <= i < |answers| ==> answers[i].Some?
    case SuggestionEnd(_) => true
    case PlayAgainEvent => v.ResultsScreen?
    case BackToSyllabusEvent => v.ResultsScreen?
    case DismissLevelToast => LoggedIn(s) && s.levelToast.Some?
    case DismissBadgeToast => LoggedIn(s) && s.unlockedBadge.Some?
  }

  /**
   What holds in every reachable session: the level matches the XP, the
   badges are the badge table with some badges achieved, the study, quiz
   and results states always have their topic and materials, results are
   only ever shown for a non-empty quiz, and requests are only pending from
   the subject choice or the syllabus.
   */
  predicate Inv(s: Session) {
    && LevelConsistent(s.progress)
    && s.progress.xp >= 0
    && s.progress.topicsCompleted >= 0
    && AchievedGrows(InitialBadges, s.progress.badges)
    && (s.gameState in {Studying, Quiz, Results} ==> s.currentTopic.Some? && s.materials.Some?)
    && (s.gameState == Results ==> s.materials.Some? && |s.materials.value.quiz| > 0)
    && (s.isLoading ==> s.gameState in {TopicSelection, SyllabusView})
    && (s.isLoading && s.gameState == SyllabusView ==> s.currentTopic.Some?)
  }

  /** The progress only moves forward: XP, level and topics never fall and achieved badges stay achieved. */
  predicate ProgressGrows(before: Progress, after: Progress) {
    && before.xp <= after.xp
    && before.level <= after.level
    && before.topicsCompleted <= after.topicsCompleted
    && AchievedGrows(before.badges, after.badges)
  }

  lemma InitialInv()
    ensures Inv(InitialSession)
    ensures RenderView(InitialSession) == Login
  {
    InitialBadgesLocked();
  }

  lemma AddXpBadgesGrow(p: Progress, points: int, activityName: string, timestamp: string)
    ensures AchievedGrows(p.badges, AddXp(p, points, activityName, timestamp).progress.badges)
  {
    var q := AddXp(p, points, activityName, timestamp).progress;
    forall i | 0 <= i < |p.badges|
      ensures q.badges[i] == p.badges[i].(achieved := q.badges[i].achieved)
    {
    }
  }

  lemma ProgressGrowsReflexive(p: Progress)
    ensures ProgressGrows(p, p)
  {
  }

  lemma ProgressGrowsTransitive(a: Progress, b: Progress, c: Progress)
    requires ProgressGrows(a, b) && ProgressGrows(b, c)
    ensures ProgressGrows(a, c)
  {
    AchievedGrowsTransitive(a.badges, b.badges, c.badges);
  }

  /** An award of non-negative points keeps the invariant and moves the progress forward. */
  lemma AwardKeepsInv(s: Session, points: int, activityName: string, timestamp: string)
    requires Inv(s) && points >= 0
    ensures LevelConsistent(Award(s, points, activityName, timestamp).progress)
    ensures ProgressGrows(s.progress, Award(s, points, activityName, timestamp).progress)
    ensures AchievedGrows(InitialBadges, Award(s, points, activityName, timestamp).progress.badges)
  {
    AddXpKeepsLevelConsistent(s.progress, points, activityName, timestamp);
    AddXpBadgesGrow(s.progress, points, activityName, timestamp);
    AchievedGrowsTransitive(InitialBadges, s.progress.badges, Award(s, points, activityName, timestamp).progress.badges);
  }

  /** Every enabled event keeps the invariant and moves the progress forward. */
  lemma StepKeepsInv(s: Session, e: Event)
    requires Inv(s) && Enabled(s, e)
    ensures Inv(Step(s, e))
    ensures ProgressGrows(s.progress, Step(s, e).progress)
  {
    ProgressGrowsReflexive(s.progress);
    match e
    case FlashcardsDone(timestamp) =>
      AwardKeepsInv(s, XpPerFlashcardSession, "Flashcards: " + TitleText(s.currentTopic), timestamp);
    case QuizDone(answers, timestamp) =>
      var points := QuizCorrect(s, answers) * XpPerQuizCorrectAnswer;
      AwardKeepsInv(s.(answers := answers), points, "Cuestionario: " + TitleText(s.currentTopic), timestamp);
    case _ =>
  }

  function Run(s: Session, events: seq<Event>): Session
    decreases |events|
  {
    if |events| == 0 then s else Run(Step(s, events[0]), events[1..])
  }

  /** The sessions reachable by enabled events. */
  predicate RunEnabled(s: Session, events: seq<Event>)
    decreases |events|
  {
    |events| == 0 || (Enabled(s, events[0]) && RunEnabled(Step(s, events[0]), events[1..]))
  }

  lemma RunOne(s: Session, e: Event, rest: seq<Event>)
    ensures Run(s, [e] + rest) == Run(Step(s, e), rest)
    ensures RunEnabled(s, [e] + rest) <==> Enabled(s, e) && RunEnabled(Step(s, e), rest)
  {
    assert ([e] + rest)[0] == e && ([e] + rest)[1..] == rest;
  }

  lemma RunNone(s: Session)
    ensures Run(s, []) == s && RunEnabled(s, [])
  {
  }

  /** Any sequence of enabled events keeps the invariant and only moves the progress forward. */
  lemma {:induction false} RunKeepsInv(s: Session, events: seq<Event>)
    requires Inv(s) && RunEnabled(s, events)
    ensures Inv(Run(s, events))
    ensures ProgressGrows(s.progress, Run(s, events).progress)
    decreases |events|
  {
    if |events| == 0 {
      ProgressGrowsReflexive(s.progress);
    } else {
      var next := Step(s, events[0]);
      StepKeepsInv(s, events[0]);
      RunKeepsInv(next, events[1..]);
      ProgressGrowsTransitive(s.progress, next.progress, Run(next, events[1..]).progress);
    }
  }

  /** In a reachable session the state switch never falls back to its missing-data message. */
  lemma NoMissingData(s: Session)
    requires Inv(s)
    ensures !RenderView(s).MissingData?
  {
  }

  /**
   Once an error message shows, no enabled event removes it: the error
   display offers no action, the loading screen is gone, and the events that
   may still arrive (the suggestion, a toast dismissal) leave the error and
   the login alone.
   */
  lemma ErrorViewPersists(s: Session, e: Event)
    requires RenderView(s).ErrorView? && Enabled(s, e)
    ensures RenderView(Step(s, e)) == RenderView(s)
  {
  }

  /** A topic whose materials fail to generate: the error shows, with the state back on the syllabus and the topic still set. */
  lemma FailedTopicRequest(s: Session, topic: SyllabusTopic, message: string)
    requires Inv(s) && RenderView(s).SyllabusScreen? && topic in s.syllabus && message != ""
    ensures var r := Run(s, [SelectTopicStart(topic), SelectTopicEnd(Failed(Some(message)))]);
      && RunEnabled(s, [SelectTopicStart(topic), SelectTopicEnd(Failed(Some(message)))])
      && RenderView(r) == ErrorView(message)
      && r.gameState == SyllabusView && r.currentTopic == Some(topic)
      && r.progress == s.progress
  {
    var e1, e2 := SelectTopicStart(topic), SelectTopicEnd(Failed(Some(message)));
    var s1 := Step(s, e1);
    var s2 := Step(s1, e2);
    RunOne(s, e1, [e2]);
    RunOne(s1, e2, []);
    RunNone(s2);
    assert [e1, e2] == [e1] + [e2] && [e2] == [e2] + [];
  }

  /** Choosing a listed topic whose materials arrive opens the study screen of that topic. */
  lemma TopicOpens(s: Session, topic: SyllabusTopic, m: StudyMaterials)
    requires Inv(s) && RenderView(s).SyllabusScreen? && topic in s.syllabus
    ensures Enabled(s, SelectTopicStart(topic))
    ensures Enabled(Step(s, SelectTopicStart(topic)), SelectTopicEnd(Ok(m)))
    ensures var r := Step(Step(s, SelectTopicStart(topic)), SelectTopicEnd(Ok(m)));
      && r.progress == s.progress && r.subject == s.subject
      && RenderView(r) == StudyScreen(topic, m.flashcards)
  {
  }

  /** Finishing the cards of a study screen opens the quiz of the same topic. */
  lemma CardsLeadToQuiz(s: Session, t: string)
    requires RenderView(s).StudyScreen?
    ensures RenderView(FlashcardSessionComplete(s, t)) == QuizScreen(RenderView(s).topic, s.materials.value.quiz)
  {
    var r := FlashcardSessionComplete(s, t);
    assert LoggedIn(r) && !r.isLoading && !ErrorShown(r);
  }

  /** Completing the quiz of a quiz screen opens its results, the suggestion not yet arrived. */
  lemma QuizLeadsToResults(s: Session, answers: seq<Answer>, t: string)
    requires RenderView(s).QuizScreen?
    ensures RenderView(QuizComplete(s, answers, t)) ==
      ResultsScreen(s.subject, RenderView(s).topic, RenderView(s).quiz, answers, "")
  {
    var r := QuizComplete(s, answers, t);
    assert LoggedIn(r) && !r.isLoading && !ErrorShown(r);
  }

  /**
   One study round from the syllabus: choosing a topic whose materials
   arrive, finishing the cards and answering the quiz earns 50 XP plus 20 XP
   per correct answer, completes one topic, logs the quiz entry above the
   flashcard entry, and shows the results of this topic.
   */
  lemma StudyRound(s: Session, topic: SyllabusTopic, m: StudyMaterials, answers: seq<Answer>, t1: string, t2: string)
    requires Inv(s) && RenderView(s).SyllabusScreen? && topic in s.syllabus
    requires |m.flashcards| > 0 && |m.quiz| > 0 && |answers| == |m.quiz| && forall i :: 0 <= i < |answers| ==> answers[i].Some?
    ensures var events := [SelectTopicStart(topic), SelectTopicEnd(Ok(m)), FlashcardsDone(t1), QuizDone(answers, t2)];
      var r := Run(s, events);
      && RunEnabled(s, events)
      && r.progress.xp == s.progress.xp + XpPerFlashcardSession + XpPerQuizCorrectAnswer * CorrectCount(m.quiz, answers)
      && r.progress.topicsCompleted == s.progress.topicsCompleted + 1
      && r.progress.activityLog == [
           ActivityLogEntry("Cuestionario: " + topic.title, XpPerQuizCorrectAnswer * CorrectCount(m.quiz, answers), t2),
           ActivityLogEntry("Flashcards: " + topic.title, XpPerFlashcardSession, t1)] + s.progress.activityLog
      && RenderView(r) == ResultsScreen(s.subject, topic, m.quiz, answers, "")
  {
    var e1, e2, e3, e4 := SelectTopicStart(topic), SelectTopicEnd(Ok(m)), FlashcardsDone(t1), QuizDone(answers, t2);
    var s3 := Step(Step(Step(s, e1), e2), e3);
    var r := Step(s3, e4);
    TopicOpens(s, topic, m);
    FirstHalf(s, topic, m, t1);
    SecondHalf(s3, topic, m, answers, t2);
    RunFour(s, e1, e2, e3, e4);
    LogOfTwo(s.progress.activityLog, s3.progress.activityLog, r.progress.activityLog,
      ActivityLogEntry("Flashcards: " + topic.title, XpPerFlashcardSession, t1),
      ActivityLogEntry("Cuestionario: " + topic.title, XpPerQuizCorrectAnswer * CorrectCount(m.quiz, answers), t2));
  }

  /** Opening a topic and finishing its cards: 50 XP, one log entry, and the quiz of that topic on screen. */
  lemma FirstHalf(s: Session, topic: SyllabusTopic, m: StudyMaterials, t1: string)
    requires Inv(s) && RenderView(s).SyllabusScreen? && topic in s.syllabus && |m.flashcards| > 0
    ensures var s2 := Step(Step(s, SelectTopicStart(topic)), SelectTopicEnd(Ok(m)));
      var s3 := Step(s2, FlashcardsDone(t1));
      && Enabled(s2, FlashcardsDone(t1))
      && s3.progress.xp == s.progress.xp + XpPerFlashcardSession
      && s3.progress.topicsCompleted == s.progress.topicsCompleted
      && s3.progress.activityLog == [ActivityLogEntry("Flashcards: " + topic.title, XpPerFlashcardSession, t1)] + s.progress.activityLog
      && s3.subject == s.subject && s3.materials == Some(m)
      && RenderView(s3) == QuizScreen(topic, m.quiz)
  {
    var s2 := Step(Step(s, SelectTopicStart(topic)), SelectTopicEnd(Ok(m)));
    TopicOpens(s, topic, m);
    assert s2.currentTopic == Some(topic) && s2.materials == Some(m);
    var s3 := FlashcardSessionComplete(s2, t1);
    assert Step(s2, FlashcardsDone(t1)) == s3;
    CardsLeadToQuiz(s2, t1);
  }

  /** Completing the quiz on screen: 20 XP per correct answer, one more topic, the results on screen. */
  lemma SecondHalf(s3: Session, topic: SyllabusTopic, m: StudyMaterials, answers: seq<Answer>, t2: string)
    requires RenderView(s3) == QuizScreen(topic, m.quiz) && s3.materials == Some(m) && |m.quiz| > 0
    requires |answers| == |m.quiz| && forall i :: 0 <= i < |answers| ==> answers[i].Some?
    ensures var r := Step(s3, QuizDone(answers, t2));
      && Enabled(s3, QuizDone(answers, t2))
      && r.progress.xp == s3.progress.xp + XpPerQuizCorrectAnswer * CorrectCount(m.quiz, answers)
      && r.progress.topicsCompleted == s3.progress.topicsCompleted + 1
      && r.progress.activityLog ==
           [ActivityLogEntry("Cuestionario: " + topic.title, XpPerQuizCorrectAnswer * CorrectCount(m.quiz, answers), t2)]
             + s3.progress.activityLog
      && RenderView(r) == ResultsScreen(s3.subject, topic, m.quiz, answers, "")
  {
    var r := QuizComplete(s3, answers, t2);
    assert Step(s3, QuizDone(answers, t2)) == r;
    QuizLeadsToResults(s3, answers, t2);
    CorrectCountIsCardinality(m.quiz, answers);
  }

  lemma LogOfTwo(log0: seq<ActivityLogEntry>, log1: seq<ActivityLogEntry>, log2: seq<ActivityLogEntry>, a: ActivityLogEntry, b: ActivityLogEntry)
    requires log1 == [a] + log0 && log2 == [b] + log1
    ensures log2 == [b, a] + log0
  {
  }

  lemma RunFour(s: Session, e1: Event, e2: Event, e3: Event, e4: Event)
    ensures Run(s, [e1, e2, e3, e4]) == Step(Step(Step(Step(s, e1), e2), e3), e4)
    ensures RunEnabled(s, [e1, e2, e3, e4]) <==>
      && Enabled(s, e1) && Enabled(Step(s, e1), e2)
      && Enabled(Step(Step(s, e1), e2), e3) && Enabled(Step(Step(Step(s, e1), e2), e3), e4)
  {
    var s1 := Step(s, e1);
    var s2 := Step(s1, e2);
    var s3 := Step(s2, e3);
    RunOne(s, e1, [e2, e3, e4]);
    RunOne(s1, e2, [e3, e4]);
    RunOne(s2, e3, [e4]);
    RunOne(s3, e4, []);
    RunNone(Step(s3, e4));
    assert [e1, e2, e3, e4] == [e1] + [e2, e3, e4];
    assert [e2, e3, e4] == [e2] + [e3, e4];
    assert [e3, e4] == [e3] + [e4];
    assert [e4] == [e4] + [];
  }

  /** "Play again" on the results screen shows the same quiz, and completing it is enabled. */
  lemma ReplayOpensQuiz(s: Session, answers: seq<Answer>, t: string)
    requires Inv(s) && RenderView(s).ResultsScreen?
    requires |answers| == |s.materials.value.quiz| && forall i :: 0 <= i < |answers| ==> answers[i].Some?
    ensures Enabled(s, PlayAgainEvent)
    ensures RenderView(Step(s, PlayAgainEvent)) == QuizScreen(s.currentTopic.value, s.materials.value.quiz)
    ensures Enabled(Step(s, PlayAgainEvent), QuizDone(answers, t))
  {
    var s1 := PlayAgain(s);
    assert Step(s, PlayAgainEvent) == s1;
    assert LoggedIn(s1) && !s1.isLoading && !ErrorShown(s1);
    assert |s.materials.value.quiz| > 0;
  }

  /**
   Playing the quiz again is a new completion: it awards the correct
   answers' XP again and counts the same topic once more.
   */
  lemma ReplayCountsAgain(s: Session, answers: seq<Answer>, t: string)
    requires Inv(s) && RenderView(s).ResultsScreen?
    requires |answers| == |s.materials.value.quiz| && forall i :: 0 <= i < |answers| ==> answers[i].Some?
    ensures var events := [PlayAgainEvent, QuizDone(answers, t)];
      var r := Run(s, events);
      && RunEnabled(s, events)
      && r.progress.xp == s.progress.xp + XpPerQuizCorrectAnswer * CorrectCount(s.materials.value.quiz, answers)
      && r.progress.topicsCompleted == s.progress.topicsCompleted + 1
      && r.currentTopic == s.currentTopic
  {
    var e1, e2 := PlayAgainEvent, QuizDone(answers, t);
    var s1 := Step(s, e1);
    var s2 := Step(s1, e2);
    ReplayOpensQuiz(s, answers, t);
    CorrectCountIsCardinality(s.materials.value.quiz, answers);
    RunOne(s, e1, [e2]);
    RunOne(s1, e2, []);
    RunNone(s2);
    assert [e1, e2] == [e1] + [e2] && [e2] == [e2] + [];
  }

  /**
   The quiz screen and the session agree: whatever run of picks and "next"
   presses completes the quiz on screen, the answers it hands over are ones
   the completion event accepts, and completing with them shows the results.
   */
  lemma QuizHandOffEnabled(s: Session, events: seq<QuizCursor.QuizEvent>, t: string)
    requires RenderView(s).QuizScreen? && |RenderView(s).quiz| > 0
    ensures QuizCursor.Valid(RenderView(s).quiz, QuizCursor.Start(RenderView(s).quiz))
    ensures var quiz := RenderView(s).quiz;
      var run := QuizCursor.RunQuiz(quiz, QuizCursor.Start(quiz), events);
      run.Finished? ==>
        && Enabled(s, QuizDone(run.answers, t))
        && RenderView(Step(s, QuizDone(run.answers, t))).ResultsScreen?
  {
    var quiz := RenderView(s).quiz;
    QuizCursor.StartValid(quiz);
    QuizCursor.RunQuizSound(quiz, QuizCursor.Start(quiz), events);
    var run := QuizCursor.RunQuiz(quiz, QuizCursor.Start(quiz), events);
    if run.Finished? {
      QuizLeadsToResults(s, run.answers, t);
    }
  }
}

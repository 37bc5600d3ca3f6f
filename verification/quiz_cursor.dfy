/**
 The quiz screen's answer-locking machine (src/components/QuizView.tsx,
 copied inline in App.tsx): the current question, the recorded answers (one
 slot per question, null until answered), the selected option and the
 feedback. Picking an option locks the question; "next" moves on or, at the
 last question, hands the answers to the completion handler.
 */
module QuizCursor {
  import opened Types

  datatype Feedback = Correct | Incorrect

  datatype Cursor = Cursor(index: nat, answers: seq<Answer>, selected: Option<string>, feedback: Option<Feedback>)

  /** The component's initial state: question 0, `Array(quiz.length).fill(null)`, nothing selected. */
  function Start(quiz: seq<QuizQuestion>): (c: Cursor)
    ensures c.index == 0 && |c.answers| == |quiz|
    ensures forall i :: 0 <= i < |quiz| ==> c.answers[i].None?
    ensures c.selected.None? && c.feedback.None?
  {
    Cursor(0, seq(|quiz|, _ => None), None, None)
  }

  /**
   The states the component can be in. The quiz is non-empty (the screen
   dereferences the current question), every question before the current
   one is answered, none after it is, and the current one is answered exactly
   when feedback is shown, the feedback telling whether that answer is correct.
   */
  predicate Valid(quiz: seq<QuizQuestion>, c: Cursor) {
    && 0 <= c.index < |quiz|
    && |c.answers| == |quiz|
    && (forall j :: 0 <= j < c.index ==> c.answers[j].Some?)
    && (forall j :: c.index < j < |quiz| ==> c.answers[j].None?)
    && (c.feedback.Some? <==> c.answers[c.index].Some?)
    && (c.feedback.None? ==> c.selected.None?)
    && (c.feedback.Some? ==> c.selected == c.answers[c.index])
    && (c.feedback == Some(Correct) <==> c.answers[c.index] == Some(quiz[c.index].correctAnswer))
  }

  /** `handleOptionSelect(option)`. */
  function SelectOption(quiz: seq<QuizQuestion>, c: Cursor, option: string): (r: Cursor)
    requires c.index < |quiz| && |c.answers| == |quiz|
    ensures c.feedback.Some? ==> r == c
    ensures c.feedback.None? ==>
      && r.index == c.index
      && r.answers == c.answers[c.index := Some(option)]
      && r.selected == Some(option)
      && r.feedback.Some?
      && (r.feedback == Some(Correct) <==> option == quiz[c.index].correctAnswer)
  {
    if c.feedback.Some? then c
    else
      var verdict := if option == quiz[c.index].correctAnswer then Correct else Incorrect;
      Cursor(c.index, c.answers[c.index := Some(option)], Some(option), Some(verdict))
  }

  datatype NextResult = Advanced(cursor: Cursor) | Completed(answers: seq<Answer>)

  /** `handleNextQuestion()`. */
  function NextQuestion(quiz: seq<QuizQuestion>, c: Cursor): (r: NextResult)
    ensures r.Advanced? <==> c.index + 1 < |quiz|
    ensures r.Advanced? ==> r.cursor == Cursor(c.index + 1, c.answers, None, None)
    ensures r.Completed? ==> r.answers == c.answers
  {
    if c.index < |quiz| - 1 then Advanced(Cursor(c.index + 1, c.answers, None, None))
    else Completed(c.answers)
  }

  /** The "next" button is rendered only while feedback is shown. */
  predicate NextOffered(c: Cursor) {
    c.feedback.Some?
  }

  lemma StartValid(quiz: seq<QuizQuestion>)
    requires |quiz| > 0
    ensures Valid(quiz, Start(quiz))
  {
  }

  /**
   Picking keeps the machine valid, writes only the current slot, and never
   overwrites an answer already given: each question is answered at most once.
   */
  lemma SelectKeepsValid(quiz: seq<QuizQuestion>, c: Cursor, option: string)
    requires Valid(quiz, c)
    ensures Valid(quiz, SelectOption(quiz, c, option))
    ensures forall j :: 0 <= j < |quiz| && c.answers[j].Some? ==> SelectOption(quiz, c, option).answers[j] == c.answers[j]
    ensures forall j :: 0 <= j < |quiz| && j != c.index ==> SelectOption(quiz, c, option).answers[j] == c.answers[j]
  {
  }

  /**
   "Next", when offered, either advances to a fresh question or completes at
   the last one with every slot answered.
   */
  lemma NextKeepsValid(quiz: seq<QuizQuestion>, c: Cursor)
    requires Valid(quiz, c) && NextOffered(c)
    ensures NextQuestion(quiz, c).Advanced? ==> Valid(quiz, NextQuestion(quiz, c).cursor)
    ensures NextQuestion(quiz, c).Completed? ==>
      && c.index == |quiz| - 1
      && |NextQuestion(quiz, c).answers| == |quiz|
      && forall j :: 0 <= j < |quiz| ==> NextQuestion(quiz, c).answers[j].Some?
  {
  }

  /** A user interaction on the quiz screen. */
  datatype QuizEvent = Pick(option: string) | PressNext

  datatype QuizRun = Running(cursor: Cursor) | Finished(answers: seq<Answer>)

  /** Feeds interactions to the screen; "next" is ignored while its button is not shown, and nothing happens after completion. */
  function RunQuiz(quiz: seq<QuizQuestion>, c: Cursor, events: seq<QuizEvent>): QuizRun
    requires Valid(quiz, c)
    decreases |events|
  {
    if |events| == 0 then Running(c)
    else match events[0]
      case Pick(option) =>
        SelectKeepsValid(quiz, c, option);
        RunQuiz(quiz, SelectOption(quiz, c, option), events[1..])
      case PressNext =>
        if !NextOffered(c) then RunQuiz(quiz, c, events[1..])
        else
          NextKeepsValid(quiz, c);
          match NextQuestion(quiz, c)
          case Advanced(c') => RunQuiz(quiz, c', events[1..])
          case Completed(answers) => Finished(answers)
  }

  /**
   Over any sequence of interactions from the start, the machine stays valid
   (so the question index never passes the last question and the answers
   keep one slot per question), and if the quiz completes it hands over one
   non-null answer per question.
   */
  lemma {:induction false} RunQuizSound(quiz: seq<QuizQuestion>, c: Cursor, events: seq<QuizEvent>)
    requires Valid(quiz, c)
    ensures RunQuiz(quiz, c, events).Running? ==> Valid(quiz, RunQuiz(quiz, c, events).cursor)
    ensures RunQuiz(quiz, c, events).Finished? ==>
      && |RunQuiz(quiz, c, events).answers| == |quiz|
      && forall j :: 0 <= j < |quiz| ==> RunQuiz(quiz, c, events).answers[j].Some?
    decreases |events|
  {
    if |events| > 0 {
      match events[0]
      case Pick(option) =>
        SelectKeepsValid(quiz, c, option);
        RunQuizSound(quiz, SelectOption(quiz, c, option), events[1..]);
      case PressNext =>
        if !NextOffered(c) {
          RunQuizSound(quiz, c, events[1..]);
        } else {
          NextKeepsValid(quiz, c);
          match NextQuestion(quiz, c)
          case Advanced(c') => RunQuizSound(quiz, c', events[1..]);
          case Completed(_) =>
        }
    }
  }
}

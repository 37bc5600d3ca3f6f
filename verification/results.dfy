/**
 Quiz scoring as the results screen (src/components/ResultsView.tsx) and the
 quiz-completion handler (src/App.tsx) compute it: the number of questions
 whose recorded answer is the correct option, the score percentage, and the
 message chosen from it.
 */
module Scoring {
  import opened Types

  /** Question `i` was answered with its correct option; a missing or null answer never matches. */
  predicate AnsweredCorrectly(quiz: seq<QuizQuestion>, answers: seq<Answer>, i: int)
    requires 0 <= i < |quiz|
  {
    i < |answers| && answers[i] == Some(quiz[i].correctAnswer)
  }

  /** `quiz.filter((q, i) => q.correctAnswer === userAnswers[i]).length`. */
  function CorrectCount(quiz: seq<QuizQuestion>, answers: seq<Answer>): (c: nat)
    ensures c <= |quiz|
  {
    if |quiz| == 0 then 0
    else CorrectCount(quiz[..|quiz| - 1], answers) + (if AnsweredCorrectly(quiz, answers, |quiz| - 1) then 1 else 0)
  }

  /** The positions the filter keeps. */
  function CorrectIndices(quiz: seq<QuizQuestion>, answers: seq<Answer>): set<int> {
    set i | 0 <= i < |quiz| && AnsweredCorrectly(quiz, answers, i)
  }

  /** The count is exactly the number of correctly answered positions. */
  lemma {:induction false} CorrectCountIsCardinality(quiz: seq<QuizQuestion>, answers: seq<Answer>)
    ensures CorrectCount(quiz, answers) == |CorrectIndices(quiz, answers)|
  {
    if |quiz| > 0 {
      var n := |quiz| - 1;
      var prefix := quiz[..n];
      CorrectCountIsCardinality(prefix, answers);
      var small := CorrectIndices(prefix, answers);
      CorrectIndicesSnoc(quiz, answers);
      if AnsweredCorrectly(quiz, answers, n) {
        assert n !in small;
        assert |small + {n}| == |small| + 1;
      }
    }
  }

  /** Growing the quiz by one question adds its position to the kept set exactly when it was answered correctly. */
  lemma CorrectIndicesSnoc(quiz: seq<QuizQuestion>, answers: seq<Answer>)
    requires |quiz| > 0
    ensures var n := |quiz| - 1;
      CorrectIndices(quiz, answers) ==
        CorrectIndices(quiz[..n], answers) + (if AnsweredCorrectly(quiz, answers, n) then {n} else {})
  {
    var n := |quiz| - 1;
    var prefix := quiz[..n];
    forall i | 0 <= i < n
      ensures AnsweredCorrectly(prefix, answers, i) == AnsweredCorrectly(quiz, answers, i)
    {
      assert prefix[i] == quiz[i];
    }
  }

  /** Every question is answered correctly exactly when the count reaches the number of questions. */
  lemma {:induction false} AllCorrectIffFullCount(quiz: seq<QuizQuestion>, answers: seq<Answer>)
    ensures CorrectCount(quiz, answers) == |quiz| <==>
      forall i :: 0 <= i < |quiz| ==> AnsweredCorrectly(quiz, answers, i)
  {
    if |quiz| > 0 {
      var n := |quiz| - 1;
      AllCorrectIffFullCount(quiz[..n], answers);
      assert forall i :: 0 <= i < n ==> (AnsweredCorrectly(quiz[..n], answers, i) <==> AnsweredCorrectly(quiz, answers, i));
    }
  }

  /** Padding the answers with nulls (or dropping answers past the last question) never changes the count. */
  lemma {:induction false} NullAnswersNeverCount(quiz: seq<QuizQuestion>, answers: seq<Answer>, k: nat)
    ensures CorrectCount(quiz, answers + seq(k, _ => None)) == CorrectCount(quiz, answers)
  {
    if |quiz| > 0 {
      var n := |quiz| - 1;
      NullAnswersNeverCount(quiz[..n], answers, k);
      var padded := answers + seq(k, _ => None);
      assert AnsweredCorrectly(quiz, padded, n) == AnsweredCorrectly(quiz, answers, n) by {
        if n < |padded| && n >= |answers| {
          assert padded[n] == None;
        }
      }
    }
  }

  /** `scorePercentage`, as an exact rational instead of a floating-point number: 0 for an empty quiz. */
  function ScorePercentage(correct: int, total: int): (p: real)
    ensures 0 <= correct <= total ==> 0.0 <= p <= 100.0
    ensures total > 0 && correct == total ==> p == 100.0
  {
    if total > 0 then
      var fraction := correct as real / total as real;
      if 0 <= correct <= total then
        FractionAtMostOne(correct as real, total as real);
        fraction * 100.0
      else fraction * 100.0
    else 0.0
  }

  /** A part of a positive whole is a fraction between 0 and 1. */
  lemma FractionAtMostOne(part: real, whole: real)
    requires 0.0 <= part <= whole && whole > 0.0
    ensures 0.0 <= part / whole <= 1.0
  {
    var q := part / whole;
    assert q * whole == part;
    assert (1.0 - q) * whole == whole - part;
  }

  datatype ScoreMessage = Perfect | Excellent | NotBad | Encourage

  /** The message thresholds: exactly 100, at least 75, at least 50, otherwise. */
  function MessageFor(percentage: real): ScoreMessage {
    if percentage == 100.0 then Perfect
    else if percentage >= 75.0 then Excellent
    else if percentage >= 50.0 then NotBad
    else Encourage
  }

  /** For a non-empty quiz the percentage times the total is 100 times the count. */
  lemma PercentageTimesTotal(correct: nat, total: nat)
    requires total > 0
    ensures ScorePercentage(correct, total) * total as real == 100.0 * correct as real
  {
    var c, t := correct as real, total as real;
    assert (c / t) * t == c;
  }

  /** Comparing the percentage with a threshold is comparing 100 times the count with threshold times the total. */
  lemma PercentageComparison(correct: nat, total: nat, threshold: nat)
    requires total > 0
    ensures ScorePercentage(correct, total) >= threshold as real <==> 100 * correct >= threshold * total
    ensures ScorePercentage(correct, total) == threshold as real <==> 100 * correct == threshold * total
  {
    var p, t := ScorePercentage(correct, total), total as real;
    PercentageTimesTotal(correct, total);
    assert p >= threshold as real <==> p * t >= threshold as real * t;
    assert p == threshold as real <==> p * t == threshold as real * t;
    assert (100 * correct) as real == 100.0 * correct as real;
    assert (threshold * total) as real == threshold as real * t;
  }

  /** The message of a score, read with integer comparisons only. */
  lemma MessageByCounts(correct: nat, total: nat)
    requires correct <= total
    ensures MessageFor(ScorePercentage(correct, total)) == Perfect <==> total > 0 && correct == total
    ensures MessageFor(ScorePercentage(correct, total)) == Excellent <==>
      total > 0 && correct < total && 4 * correct >= 3 * total
    ensures MessageFor(ScorePercentage(correct, total)) == NotBad <==>
      total > 0 && 4 * correct < 3 * total && 2 * correct >= total
    ensures MessageFor(ScorePercentage(correct, total)) == Encourage <==> total == 0 || 2 * correct < total
  {
    if total > 0 {
      PercentageComparison(correct, total, 100);
      PercentageComparison(correct, total, 75);
      PercentageComparison(correct, total, 50);
    }
  }

  /** An empty quiz scores 0 and gets the lowest message. */
  lemma EmptyQuizEncourages(answers: seq<Answer>)
    ensures CorrectCount([], answers) == 0
    ensures ScorePercentage(CorrectCount([], answers), 0) == 0.0
    ensures MessageFor(ScorePercentage(CorrectCount([], answers), 0)) == Encourage
  {
  }

  /** The ranking of messages, lowest first. */
  function MessageRank(m: ScoreMessage): nat {
    match m
    case Encourage => 0
    case NotBad => 1
    case Excellent => 2
    case Perfect => 3
  }

  /** One more correct answer never yields a lower message. */
  lemma MessageMonotone(correct: nat, total: nat)
    requires correct < total
    ensures MessageRank(MessageFor(ScorePercentage(correct, total)))
         <= MessageRank(MessageFor(ScorePercentage(correct + 1, total)))
  {
    MessageByCounts(correct, total);
    MessageByCounts(correct + 1, total);
  }

  const SuggestionPlaceholder: string := "Generando consejo..."

  /** `studySuggestion || "Generando consejo..."`: an empty suggestion shows the placeholder. */
  function SuggestionText(suggestion: string): (t: string)
    ensures suggestion == "" ==> t == SuggestionPlaceholder
    ensures suggestion != "" ==> t == suggestion
    ensures t != ""
  {
    if suggestion == "" then SuggestionPlaceholder else suggestion
  }
}

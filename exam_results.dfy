/** The results screen: percentage, pass line, letter grade and the
    per-question review. */
module ExamResults {
  import opened ExamTypes
  import ExamInterface

  // ---------------------------------------------------------------------
  // Percentage: `Math.round((score / total_questions) * 100)`
  // ---------------------------------------------------------------------

  /** The whole percentage nearest to 100*score/total, halves rounded up
      (`Math.round` on a non-negative value), in exact arithmetic. */
  function Percentage(score: nat, total: nat): (p: int)
    requires total > 0
    ensures 2 * p * total - total <= 200 * score < 2 * p * total + total
  {
    (200 * score + total) / (2 * total)
  }

  /** Only one whole number lies within half of 100*score/total, ties up:
      the contract of Percentage pins its value down. */
  lemma PercentageUnique(score: nat, total: nat, p: int)
    requires total > 0
    requires 2 * p * total - total <= 200 * score < 2 * p * total + total
    ensures p == Percentage(score, total)
  {
    var q := Percentage(score, total);
    assert 2 * p * total == 2 * (p * total) && 2 * q * total == 2 * (q * total);
    assert (p - q) * total == p * total - q * total;
    assert (q - p) * total == q * total - p * total;
    BelowOne(p - q, total);
    BelowOne(q - p, total);
  }

  /** A score within the total gives a percentage in [0, 100]. */
  lemma PercentageInRange(score: nat, total: nat)
    requires 0 < total && score <= total
    ensures 0 <= Percentage(score, total) <= 100
  {
    var p := Percentage(score, total);
    assert 2 * p * total == 2 * (p * total);
    assert (-p) * total == -(p * total);
    assert (p - 100) * total == p * total - 100 * total;
    BelowOne(-p, total);
    BelowOne(p - 100, total);
  }

  /** More correct answers never lower the percentage. */
  lemma PercentageMonotone(s1: nat, s2: nat, total: nat)
    requires total > 0 && s1 <= s2
    ensures Percentage(s1, total) <= Percentage(s2, total)
  {
    var p1, p2 := Percentage(s1, total), Percentage(s2, total);
    assert 2 * p1 * total == 2 * (p1 * total) && 2 * p2 * total == 2 * (p2 * total);
    assert (p1 - p2) * total == p1 * total - p2 * total;
    BelowOne(p1 - p2, total);
  }

  /** Multiplying by a positive factor t: a * t < t only when a < 1. */
  lemma BelowOne(a: int, t: int)
    requires t > 0 && a * t < t
    ensures a < 1
  {
  }

  // ---------------------------------------------------------------------
  // Grades and the pass line
  // ---------------------------------------------------------------------

  datatype Grade = APlus | A | B | C | D | F

  /** Grades from worst (0) to best (5). */
  function Rank(g: Grade): nat
  {
    match g
    case F => 0
    case D => 1
    case C => 2
    case B => 3
    case A => 4
    case APlus => 5
  }

  /** The lowest percentage that earns a grade (F has no lower bound). */
  function Threshold(g: Grade): int
  {
    match g
    case APlus => 90
    case A => 80
    case B => 70
    case C => 60
    case D => 50
    case F => 0
  }

  /** `getGrade`: the best grade whose threshold the percentage reaches. */
  function GetGrade(percentage: int): (g: Grade)
    ensures g != F ==> percentage >= Threshold(g)
    ensures forall h: Grade :: h != F && Rank(h) > Rank(g) ==> percentage < Threshold(h)
  {
    if percentage >= 90 then APlus
    else if percentage >= 80 then A
    else if percentage >= 70 then B
    else if percentage >= 60 then C
    else if percentage >= 50 then D
    else F
  }

  /** A higher percentage never yields a lower grade. */
  lemma GradeMonotone(p1: int, p2: int)
    requires p1 <= p2
    ensures Rank(GetGrade(p1)) <= Rank(GetGrade(p2))
  {
  }

  /** `isPassed`: 70% is the pass line, so passing is earning a B or
      better. */
  function IsPassed(percentage: int): (passed: bool)
    ensures passed <==> Rank(GetGrade(percentage)) >= Rank(B)
  {
    percentage >= 70
  }

  /** Passing is exactly earning A+, A or B. */
  lemma PassedIffGradeAtLeastB(percentage: int)
    ensures IsPassed(percentage) <==> GetGrade(percentage) in {APlus, A, B}
  {
  }

  /** The worked cases: 6/10 is 60% C and fails; 7/10 is 70% B and
      passes; 9/10 is 90% A+ and passes. */
  lemma GradeExamples()
    ensures Percentage(6, 10) == 60 && GetGrade(60) == C && !IsPassed(60)
    ensures Percentage(7, 10) == 70 && GetGrade(70) == B && IsPassed(70)
    ensures Percentage(9, 10) == 90 && GetGrade(90) == APlus && IsPassed(90)
  {
  }

  // ---------------------------------------------------------------------
  // The header figures
  // ---------------------------------------------------------------------

  datatype Summary = Summary(percentage: int, passed: bool, grade: Grade, correct: nat, incorrect: int)

  /** What the header shows for a stored attempt. */
  function Summarize(attempt: AttemptData): (s: Summary)
    requires attempt.totalQuestions > 0
    ensures s.correct + s.incorrect == attempt.totalQuestions
    ensures s.passed <==> s.grade in {APlus, A, B}
    ensures s.passed <==> s.percentage >= 70
    ensures attempt.score <= attempt.totalQuestions ==> 0 <= s.percentage <= 100 && s.incorrect >= 0
    ensures s.percentage == Percentage(attempt.score, attempt.totalQuestions)
    ensures s.grade == GetGrade(s.percentage) && s.passed == IsPassed(s.percentage)
    ensures s.correct == attempt.score
  {
    var p := Percentage(attempt.score, attempt.totalQuestions);
    PassedIffGradeAtLeastB(p);
    var s := Summary(p, IsPassed(p), GetGrade(p), attempt.score, attempt.totalQuestions - attempt.score);
    if attempt.score <= attempt.totalQuestions then
      PercentageInRange(attempt.score, attempt.totalQuestions); s
    else s
  }

  /** For an attempt scored over the reviewed questions, "Incorrect" counts
      the questions answered wrongly or left unanswered. */
  lemma IncorrectCountsWrongAndUnanswered(attempt: AttemptData, questions: seq<Question>)
    requires |questions| > 0
    requires attempt.totalQuestions == |questions|
    requires attempt.score == ExamInterface.Score(questions, attempt.answers)
    ensures Summarize(attempt).incorrect == |ExamInterface.IncorrectIndices(questions, attempt.answers)|
    ensures Summarize(attempt).correct == |ExamInterface.CorrectIndices(questions, attempt.answers)|
  {
    ExamInterface.ScoreCountsCorrectAnswers(questions, attempt.answers);
  }

  // ---------------------------------------------------------------------
  // The per-question review
  // ---------------------------------------------------------------------

  /** `question[`option_${key}`]`: the text of the option a key names. */
  function OptionText(q: Question, key: OptionKey): (text: string)
    ensures key == KeyA ==> text == q.optionA
    ensures key == KeyB ==> text == q.optionB
    ensures key == KeyC ==> text == q.optionC
    ensures key == KeyD ==> text == q.optionD
  {
    match key
    case KeyA => q.optionA
    case KeyB => q.optionB
    case KeyC => q.optionC
    case KeyD => q.optionD
  }

  /** One side of a review card: a chosen key with its text, or
      "No answer selected". */
  datatype AnswerShown = NoAnswerSelected | Shown(key: OptionKey, text: string)

  datatype ReviewCard = ReviewCard(isCorrect: bool, yourAnswer: AnswerShown, correctAnswer: AnswerShown)

  /** The review card of one question under the stored answers. */
  function Review(q: Question, answers: Answers): (card: ReviewCard)
    ensures card.isCorrect <==> AnsweredCorrectly(answers, q)
    ensures card.yourAnswer == NoAnswerSelected <==> q.id !in answers
    ensures card.yourAnswer.Shown? ==>
      card.yourAnswer.key == answers[q.id] && card.yourAnswer.text == OptionText(q, answers[q.id])
    ensures card.correctAnswer == Shown(q.correctAnswer, OptionText(q, q.correctAnswer))
    ensures card.isCorrect ==> card.yourAnswer == card.correctAnswer
    ensures !card.isCorrect && card.yourAnswer.Shown? ==> card.yourAnswer.key != q.correctAnswer
  {
    var yours := if q.id in answers then Shown(answers[q.id], OptionText(q, answers[q.id])) else NoAnswerSelected;
    ReviewCard(AnsweredCorrectly(answers, q), yours, Shown(q.correctAnswer, OptionText(q, q.correctAnswer)))
  }

  /** The number of review cards marked correct equals the stored score
      when the attempt was scored over the same questions. */
  function CorrectCards(questions: seq<Question>, answers: Answers): (n: nat)
    ensures n == ExamInterface.Score(questions, answers)
  {
    if |questions| == 0 then 0
    else
      var last := |questions| - 1;
      CorrectCards(questions[..last], answers) + (if Review(questions[last], answers).isCorrect then 1 else 0)
  }
}

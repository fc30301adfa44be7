/** Entities shared by the exam screens: modules, questions, the answer
    ledger, stored attempts and proctoring events. */
module ExamTypes {

  datatype Option<+T> = None | Some(value: T)

  /** An instant in time. Only its order matters to the model; the
      ISO-8601 text the application stores is not modelled. */
  type Timestamp = nat

  /** The four option keys 'a' | 'b' | 'c' | 'd'. */
  datatype OptionKey = KeyA | KeyB | KeyC | KeyD

  datatype Module = Module(
    id: string,
    title: string,
    description: string,
    totalQuestions: nat,
    durationMinutes: nat)

  datatype Question = Question(
    id: string,
    moduleId: string,
    questionText: string,
    optionA: string,
    optionB: string,
    optionC: string,
    optionD: string,
    correctAnswer: OptionKey,
    questionNumber: nat)

  /** The answer ledger: question id to the selected option key. */
  type Answers = map<string, OptionKey>

  /** The attempt record handed to the result store. */
  datatype AttemptData = AttemptData(
    userId: string,
    moduleId: string,
    score: nat,
    totalQuestions: nat,
    timeTakenMinutes: int,
    answers: Answers,
    proctoringViolations: nat,
    completedAt: Timestamp)

  /** An attempt as the result store returns it, with its assigned id. */
  datatype UserAttempt = UserAttempt(id: string, data: AttemptData)

  datatype ViolationType = TabChange | FullscreenExit | RightClick | CopyPaste

  datatype ProctoringEvent = ProctoringEvent(kind: ViolationType, timestamp: Timestamp)

  /** `answers[question.id] === question.correct_answer`: a missing entry
      is never equal to the key. */
  predicate AnsweredCorrectly(answers: Answers, q: Question)
  {
    q.id in answers && answers[q.id] == q.correctAnswer
  }
}

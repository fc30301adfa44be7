/** The exam session screen: answer ledger, countdown, question navigation,
    the guarded submission and the pure computations it relies on
    (score, time taken, the m:ss clock). */
module ExamInterface {
  import opened ExamTypes

  // ---------------------------------------------------------------------
  // Scoring: `questions.reduce((total, q) => total + (correct ? 1 : 0), 0)`
  // ---------------------------------------------------------------------

  /** The score, folded left to right over the questions as the source's
      reduce does. Unanswered questions add nothing. */
  function Score(questions: seq<Question>, answers: Answers): (score: nat)
    ensures score <= |questions|
  {
    if |questions| == 0 then 0
    else
      var last := |questions| - 1;
      Score(questions[..last], answers) + (if AnsweredCorrectly(answers, questions[last]) then 1 else 0)
  }

  /** Positions of the questions answered with their correct key. */
  ghost function CorrectIndices(questions: seq<Question>, answers: Answers): set<nat>
  {
    set i: nat | i < |questions| && AnsweredCorrectly(answers, questions[i])
  }

  /** Positions of the questions answered wrongly or not at all. */
  ghost function IncorrectIndices(questions: seq<Question>, answers: Answers): set<nat>
  {
    set i: nat | i < |questions| && !AnsweredCorrectly(answers, questions[i])
  }

  /** The score counts exactly the correctly answered questions, and the
      rest (wrong or unanswered) make up the difference to the total. */
  lemma {:induction false} ScoreCountsCorrectAnswers(questions: seq<Question>, answers: Answers)
    ensures Score(questions, answers) == |CorrectIndices(questions, answers)|
    ensures |questions| - Score(questions, answers) == |IncorrectIndices(questions, answers)|
  {
    if |questions| == 0 {
      assert CorrectIndices(questions, answers) == {};
      assert IncorrectIndices(questions, answers) == {};
    } else {
      var last := |questions| - 1;
      ScoreCountsCorrectAnswers(questions[..last], answers);
      IndicesOfLast(questions, answers);
    }
  }

  /** Adding the last question adds its position to exactly one of the two sets. */
  lemma IndicesOfLast(questions: seq<Question>, answers: Answers)
    requires |questions| > 0
    ensures var last := |questions| - 1;
      && CorrectIndices(questions, answers)
         == CorrectIndices(questions[..last], answers)
            + (if AnsweredCorrectly(answers, questions[last]) then {last} else {})
      && IncorrectIndices(questions, answers)
         == IncorrectIndices(questions[..last], answers)
            + (if AnsweredCorrectly(answers, questions[last]) then {} else {last})
  {
    var last := |questions| - 1;
    var init := questions[..last];
    forall i: nat | i < last ensures init[i] == questions[i] { }
  }

  /** Ledger entries for ids that are not among the questions never affect
      the score: only `answers[question.id]` is consulted. */
  lemma {:induction false} ScoreReadsOnlyQuestionIds(questions: seq<Question>, a1: Answers, a2: Answers)
    requires forall q :: q in questions ==> AnsweredCorrectly(a1, q) == AnsweredCorrectly(a2, q)
    ensures Score(questions, a1) == Score(questions, a2)
  {
    if |questions| > 0 {
      var last := |questions| - 1;
      assert questions[last] in questions;
      forall q | q in questions[..last] ensures AnsweredCorrectly(a1, q) == AnsweredCorrectly(a2, q) {
        assert q in questions;
      }
      ScoreReadsOnlyQuestionIds(questions[..last], a1, a2);
    }
  }

  // ---------------------------------------------------------------------
  // Time taken: `Math.ceil((duration_minutes * 60 - timeLeft) / 60)`
  // ---------------------------------------------------------------------

  /** Whole minutes used, rounded up. */
  function TimeTaken(durationMinutes: nat, timeLeft: int): (minutes: int)
    ensures (minutes - 1) * 60 < durationMinutes * 60 - timeLeft <= minutes * 60
  {
    var elapsed := durationMinutes * 60 - timeLeft;
    -((-elapsed) / 60)
  }

  /** With the clock inside its range the minutes used lie in [0, duration]. */
  lemma TimeTakenWithinDuration(durationMinutes: nat, timeLeft: int)
    requires 0 <= timeLeft <= durationMinutes * 60
    ensures 0 <= TimeTaken(durationMinutes, timeLeft) <= durationMinutes
  {
  }

  /** Less time left never means less time taken. */
  lemma TimeTakenAntitone(durationMinutes: nat, t1: int, t2: int)
    requires t1 <= t2
    ensures TimeTaken(durationMinutes, t2) <= TimeTaken(durationMinutes, t1)
  {
  }

  // ---------------------------------------------------------------------
  // The clock display: `${minutes}:${secs.toString().padStart(2, '0')}`
  // ---------------------------------------------------------------------

  predicate IsDigit(c: char)
  {
    '0' <= c <= '9'
  }

  predicate AllDigits(s: string)
  {
    forall i :: 0 <= i < |s| ==> IsDigit(s[i])
  }

  function DigitChar(d: nat): (c: char)
    requires d < 10
    ensures IsDigit(c) && c as int - '0' as int == d
  {
    ('0' as int + d) as char
  }

  /** The number a string of decimal digits denotes. */
  function DecimalValue(s: string): nat
    requires AllDigits(s)
  {
    if |s| == 0 then 0
    else DecimalValue(s[..|s| - 1]) * 10 + (s[|s| - 1] as int - '0' as int)
  }

  /** `n.toString()` for a non-negative integer: shortest decimal digits. */
  function Decimal(n: nat): (s: string)
    ensures 1 <= |s| && AllDigits(s)
    ensures DecimalValue(s) == n
    ensures |s| > 1 ==> s[0] != '0'
    ensures n < 10 ==> |s| == 1
    ensures 10 <= n < 100 ==> |s| == 2
    decreases n
  {
    if n < 10 then [DigitChar(n)]
    else
      var prefix := Decimal(n / 10);
      var s := prefix + [DigitChar(n % 10)];
      assert s[..|s| - 1] == prefix;
      assert |prefix| == 1 ==> DecimalValue(prefix) == prefix[0] as int - '0' as int by {
        if |prefix| == 1 { assert prefix[..0] == []; }
      }
      s
  }

  /** `n.toString().padStart(2, '0')` for n < 60. */
  function PadTwo(n: nat): (s: string)
    requires n < 60
    ensures |s| == 2 && AllDigits(s) && DecimalValue(s) == n
  {
    if n < 10 then
      var s := ['0', DigitChar(n)];
      assert s[..1] == ['0'] && ['0'][..0] == [];
      s
    else Decimal(n)
  }

  /** Decimal digits as `toString()` writes them: at least one digit and
      no leading zero. */
  predicate Canonical(d: string)
  {
    1 <= |d| && AllDigits(d) && (|d| > 1 ==> d[0] != '0')
  }

  /** `formatTime(seconds)`. */
  function FormatTime(seconds: nat): (t: string)
    ensures 4 <= |t| && t[|t| - 3] == ':'
    ensures Canonical(t[..|t| - 3]) && AllDigits(t[|t| - 2..])
  {
    var t := Decimal(seconds / 60) + ":" + PadTwo(seconds % 60);
    assert t[..|t| - 3] == Decimal(seconds / 60);
    assert t[|t| - 2..] == PadTwo(seconds % 60);
    t
  }

  /** Reads an `m:ss` display back into seconds: minutes without leading
      zeros, a colon, and a two-digit seconds field below 60. */
  function ParseTime(t: string): Option<nat>
  {
    if 4 <= |t| && t[|t| - 3] == ':' && Canonical(t[..|t| - 3]) && AllDigits(t[|t| - 2..])
       && DecimalValue(t[|t| - 2..]) < 60
    then Some(DecimalValue(t[..|t| - 3]) * 60 + DecimalValue(t[|t| - 2..]))
    else None
  }

  /** The display determines the seconds: minutes*60 + ss == seconds,
      with ss a two-digit field below 60. */
  lemma FormatTimeRoundTrip(seconds: nat)
    ensures ParseTime(FormatTime(seconds)) == Some(seconds)
  {
    var m := Decimal(seconds / 60);
    var ss := PadTwo(seconds % 60);
    var t := m + ":" + ss;
    assert t[..|t| - 3] == m;
    assert t[|t| - 2..] == ss;
  }

  /** A digit string whose first digit is not zero denotes a positive number. */
  lemma {:induction false} LeadingDigitPositive(d: string)
    requires 1 <= |d| && AllDigits(d) && d[0] != '0'
    ensures DecimalValue(d) >= 1
  {
    if |d| > 1 {
      LeadingDigitPositive(d[..|d| - 1]);
    }
  }

  /** `toString()` is the only canonical spelling of a number. */
  lemma {:induction false} DecimalUnique(d: string)
    requires Canonical(d)
    ensures d == Decimal(DecimalValue(d))
  {
    if |d| > 1 {
      var prefix := d[..|d| - 1];
      LeadingDigitPositive(prefix);
      DecimalUnique(prefix);
      var v := DecimalValue(d);
      assert v / 10 == DecimalValue(prefix) && v % 10 == d[|d| - 1] as int - '0' as int;
      assert d == prefix + [d[|d| - 1]];
    }
  }

  /** Two digits below 60 are the padded spelling of their value. */
  lemma PadTwoUnique(ss: string)
    requires |ss| == 2 && AllDigits(ss) && DecimalValue(ss) < 60
    ensures ss == PadTwo(DecimalValue(ss))
  {
    assert ss[..1] == [ss[0]] && ss[..1][..0] == [];
    if ss[0] != '0' {
      DecimalUnique(ss);
    }
  }

  /** Only the clock's own text parses: whatever ParseTime accepts is
      exactly the display of the seconds it yields, so the round trip pins
      the text (65 seconds can only read "1:05"). */
  lemma ParseTimeOnlyDisplays(t: string, seconds: nat)
    requires ParseTime(t) == Some(seconds)
    ensures t == FormatTime(seconds)
  {
    var m, ss := t[..|t| - 3], t[|t| - 2..];
    DecimalUnique(m);
    PadTwoUnique(ss);
    assert seconds / 60 == DecimalValue(m) && seconds % 60 == DecimalValue(ss);
    assert t == m + ":" + ss;
  }

  /** 65 seconds are shown as "1:05". */
  lemma FormatTimeExample()
    ensures FormatTime(65) == "1:05"
  {
    assert Decimal(1) == "1";
    assert PadTwo(5) == "05";
  }

  // ---------------------------------------------------------------------
  // The answer ledger
  // ---------------------------------------------------------------------

  /** `{...prev, [questionId]: answer}`: insert or overwrite one entry. */
  function Upsert(answers: Answers, questionId: string, key: OptionKey): (r: Answers)
    ensures questionId in r && r[questionId] == key
    ensures forall q :: q != questionId ==> (q in r <==> q in answers)
    ensures forall q :: q != questionId && q in answers ==> r[q] == answers[q]
    ensures |r| == if questionId in answers then |answers| else |answers| + 1
  {
    var r := answers[questionId := key];
    assert r.Keys == answers.Keys + {questionId};
    r
  }

  /** Selecting b and then d for one question leaves one entry, d. */
  lemma UpsertOverwrites(answers: Answers, questionId: string)
    ensures Upsert(Upsert(answers, questionId, KeyB), questionId, KeyD) == Upsert(answers, questionId, KeyD)
  {
  }

  ghost function QuestionIds(questions: seq<Question>): set<string>
  {
    set q | q in questions :: q.id
  }

  /** There are no more distinct question ids than questions. */
  lemma {:induction false} QuestionIdsBound(questions: seq<Question>)
    ensures |QuestionIds(questions)| <= |questions|
  {
    if |questions| > 0 {
      var rest := questions[1..];
      QuestionIdsBound(rest);
      assert QuestionIds(questions) == QuestionIds(rest) + {questions[0].id} by {
        forall id | id in QuestionIds(questions) ensures id in QuestionIds(rest) + {questions[0].id} {
          var q :| q in questions && q.id == id;
          if q != questions[0] {
            assert q in rest;
          }
        }
      }
    }
  }

  // ---------------------------------------------------------------------
  // Submission
  // ---------------------------------------------------------------------

  /** Outcome of the result store's insert: the stored row's id, or an error. */
  datatype InsertResult = Inserted(id: string) | InsertFailed

  /** The attempt record built by `handleSubmitExam` before it is stored. */
  function BuildAttempt(examModule: Module, userId: string, questions: seq<Question>, answers: Answers,
                        timeLeft: int, violationCount: nat, now: Timestamp): (a: AttemptData)
    ensures a.score <= a.totalQuestions == |questions|
    ensures a.score == |CorrectIndices(questions, answers)|
    ensures a.moduleId == examModule.id && a.userId == userId && a.answers == answers
    ensures a.proctoringViolations == violationCount && a.completedAt == now
    ensures a.timeTakenMinutes == TimeTaken(examModule.durationMinutes, timeLeft)
    ensures 0 <= timeLeft <= examModule.durationMinutes * 60 ==> 0 <= a.timeTakenMinutes <= examModule.durationMinutes
  {
    ScoreCountsCorrectAnswers(questions, answers);
    var a := AttemptData(userId, examModule.id, Score(questions, answers), |questions|,
                         TimeTaken(examModule.durationMinutes, timeLeft), answers, violationCount, now);
    if 0 <= timeLeft <= examModule.durationMinutes * 60 then
      TimeTakenWithinDuration(examModule.durationMinutes, timeLeft); a
    else a
  }

  /** One mounted exam screen. The question list is the one the content
      store returned (fetching is outside the model). */
  class ExamSession {
    const examModule: Module
    const userId: string
    const questions: seq<Question>
    var answers: Answers
    var timeLeft: int
    var currentQuestionIndex: int
    var submitting: bool

    ghost predicate Valid()
      reads this
    {
      && 0 <= timeLeft <= examModule.durationMinutes * 60
      && 0 <= currentQuestionIndex
      && (|questions| > 0 ==> currentQuestionIndex < |questions|)
      && answers.Keys <= QuestionIds(questions)
    }

    constructor (examModule: Module, userId: string, questions: seq<Question>)
      ensures Valid()
      ensures this.examModule == examModule && this.userId == userId && this.questions == questions
      ensures answers == map[] && timeLeft == examModule.durationMinutes * 60
      ensures currentQuestionIndex == 0 && !submitting
    {
      this.examModule := examModule;
      this.userId := userId;
      this.questions := questions;
      answers := map[];
      timeLeft := examModule.durationMinutes * 60;
      currentQuestionIndex := 0;
      submitting := false;
    }

    /** `Object.keys(answers).length`: never more than the questions. */
    function AnsweredCount(): (n: nat)
      reads this
      requires Valid()
      ensures n <= |questions|
    {
      QuestionIdsBound(questions);
      assert |answers.Keys| <= |QuestionIds(questions)| by {
        SubsetCardinality(answers.Keys, QuestionIds(questions));
      }
      |answers|
    }

    /** `handleAnswerSelect`: record the option chosen for a displayed question. */
    method SelectAnswer(questionId: string, key: OptionKey)
      requires Valid()
      requires questionId in QuestionIds(questions)
      modifies this`answers
      ensures Valid()
      ensures answers == Upsert(old(answers), questionId, key)
      ensures AnsweredCount() == old(AnsweredCount()) + (if questionId in old(answers) then 0 else 1)
    {
      answers := Upsert(answers, questionId, key);
    }

    /** The Previous button: `Math.max(0, prev - 1)`. */
    method Previous()
      requires Valid()
      modifies this`currentQuestionIndex
      ensures Valid()
      ensures old(currentQuestionIndex) == 0 ==> currentQuestionIndex == 0
      ensures old(currentQuestionIndex) > 0 ==> currentQuestionIndex == old(currentQuestionIndex) - 1
      ensures answers == old(answers)
    {
      currentQuestionIndex := if currentQuestionIndex - 1 > 0 then currentQuestionIndex - 1 else 0;
    }

    /** The Next button, shown only while a question is displayed:
        `Math.min(questions.length - 1, prev + 1)`. */
    method Next()
      requires Valid()
      requires |questions| > 0
      modifies this`currentQuestionIndex
      ensures Valid()
      ensures old(currentQuestionIndex) == |questions| - 1 ==> currentQuestionIndex == |questions| - 1
      ensures old(currentQuestionIndex) < |questions| - 1 ==> currentQuestionIndex == old(currentQuestionIndex) + 1
      ensures answers == old(answers)
    {
      currentQuestionIndex := if |questions| - 1 < currentQuestionIndex + 1 then |questions| - 1 else currentQuestionIndex + 1;
    }

    /** A sidebar button jumps to its own question. */
    method GoTo(index: int)
      requires Valid()
      requires 0 <= index < |questions|
      modifies this`currentQuestionIndex
      ensures Valid()
      ensures currentQuestionIndex == index
      ensures answers == old(answers)
    {
      currentQuestionIndex := index;
    }

    /** The synchronous part of `handleSubmitExam`, up to the insert: a
        no-op while a submission is in flight, otherwise raise the flag and
        build the attempt from the current ledger and clock. */
    method BeginSubmit(violationCount: nat, now: Timestamp) returns (draft: Option<AttemptData>)
      requires Valid()
      modifies this`submitting
      ensures Valid() && submitting
      ensures old(submitting) ==> draft == None
      ensures !old(submitting) ==> draft == Some(BuildAttempt(examModule, userId, questions, answers, timeLeft, violationCount, now))
    {
      if submitting {
        return None;
      }
      submitting := true;
      draft := Some(BuildAttempt(examModule, userId, questions, answers, timeLeft, violationCount, now));
    }

    /** The rest of `handleSubmitExam`, once the insert has answered: the
        attempt is completed only when the insert succeeded and leaving full
        screen (when the page was full screen) did not throw; the flag is
        lowered on every path. */
    method FinishSubmit(draft: AttemptData, insert: InsertResult, exitFullscreenFailed: bool)
      returns (completed: Option<UserAttempt>)
      requires Valid()
      modifies this`submitting
      ensures Valid() && !submitting
      ensures completed.Some? <==> insert.Inserted? && !exitFullscreenFailed
      ensures completed.Some? ==> completed.value == UserAttempt(insert.id, draft)
    {
      completed := None;
      if insert.Inserted? && !exitFullscreenFailed {
        completed := Some(UserAttempt(insert.id, draft));
      }
      submitting := false;
    }

    /** One tick of the one-second interval: at or below one second the
        submission is started (with the clock as it stood) and the clock
        is pinned at 0; otherwise the clock counts down by one. */
    method Tick(violationCount: nat, now: Timestamp) returns (fired: bool, draft: Option<AttemptData>)
      requires Valid()
      modifies this`timeLeft, this`submitting
      ensures Valid()
      ensures fired <==> old(timeLeft) <= 1
      ensures timeLeft == if fired then 0 else old(timeLeft) - 1
      ensures 0 <= timeLeft <= old(timeLeft)
      ensures fired ==> submitting
      ensures fired && old(submitting) ==> draft == None
      ensures fired && !old(submitting) ==>
        draft == Some(BuildAttempt(examModule, userId, questions, answers, old(timeLeft), violationCount, now))
      ensures !fired ==> draft == None && submitting == old(submitting)
    {
      fired := timeLeft <= 1;
      if fired {
        draft := BeginSubmit(violationCount, now);
        timeLeft := 0;
      } else {
        draft := None;
        timeLeft := timeLeft - 1;
      }
    }
  }

  /** A subset has no more elements than its superset. */
  lemma {:induction false} SubsetCardinality<T>(a: set<T>, b: set<T>)
    requires a <= b
    ensures |a| <= |b|
  {
    if a != {} {
      var x :| x in a;
      SubsetCardinality(a - {x}, b - {x});
    }
  }

  /** A manual submit whose insert is still in flight when the clock runs
      out: the ticks count the clock down, the expiring tick fires but
      starts no second submission; once the first has failed, a later
      submit builds a fresh attempt. */
  method SubmitRacingTimer(examModule: Module, userId: string, questions: seq<Question>,
                           violationCount: nat, now: Timestamp)
    returns (first: Option<AttemptData>, fired: bool, second: Option<AttemptData>, retry: Option<AttemptData>)
    ensures first.Some? && first.value.score <= first.value.totalQuestions == |questions|
    ensures fired && second == None
    ensures retry.Some?
  {
    var session := new ExamSession(examModule, userId, questions);
    first := session.BeginSubmit(violationCount, now);
    while session.timeLeft > 1
      invariant session.Valid() && session.submitting
      decreases session.timeLeft
    {
      var _, _ := session.Tick(violationCount, now);
    }
    fired, second := session.Tick(violationCount, now);
    var completed := session.FinishSubmit(first.value, InsertFailed, false);
    retry := session.BeginSubmit(violationCount, now);
  }
}

/** The dashboard's summaries over the fetched modules and attempts: the
    latest attempt per module, its percentage and colour band, the
    Start/Retake label, the five most recent attempts and the average. */
module Dashboard {
  import opened ExamTypes
  import ExamResults

  /** `Array.prototype.find`: the first element satisfying `p`, if any. */
  function Find<T>(xs: seq<T>, p: T -> bool): (r: Option<T>)
    ensures r.None? <==> forall i :: 0 <= i < |xs| ==> !p(xs[i])
    ensures r.Some? ==>
      exists i :: 0 <= i < |xs| && xs[i] == r.value && p(xs[i]) && forall j :: 0 <= j < i ==> !p(xs[j])
  {
    if |xs| == 0 then None
    else if p(xs[0]) then Some(xs[0])
    else
      var r := Find(xs[1..], p);
      assert r.Some? ==> exists i :: 0 < i < |xs| && xs[i] == r.value && p(xs[i]) && forall j :: 0 <= j < i ==> !p(xs[j]) by {
        if r.Some? {
          var k :| 0 <= k < |xs| - 1 && xs[1..][k] == r.value && p(xs[1..][k]) && forall j :: 0 <= j < k ==> !p(xs[1..][j]);
          assert forall j :: 1 <= j < k + 1 ==> xs[j] == xs[1..][j - 1];
        }
      }
      r
  }

  /** Attempts as fetched: ordered by completion time, newest first. */
  ghost predicate NewestFirst(attempts: seq<UserAttempt>)
  {
    forall i, j :: 0 <= i < j < |attempts| ==> attempts[j].data.completedAt <= attempts[i].data.completedAt
  }

  predicate ForModule(moduleId: string, a: UserAttempt)
  {
    a.data.moduleId == moduleId
  }

  /** `getModuleAttempt`: the first fetched attempt at the module. */
  function GetModuleAttempt(attempts: seq<UserAttempt>, moduleId: string): (r: Option<UserAttempt>)
    ensures r.None? <==> forall i :: 0 <= i < |attempts| ==> !ForModule(moduleId, attempts[i])
    ensures r.Some? ==> r.value in attempts && ForModule(moduleId, r.value)
    ensures r.Some? ==>
      exists i :: 0 <= i < |attempts| && attempts[i] == r.value && ForModule(moduleId, attempts[i])
        && forall j :: 0 <= j < i ==> !ForModule(moduleId, attempts[j])
  {
    Find(attempts, a => ForModule(moduleId, a))
  }

  /** Because attempts arrive newest first, the attempt the dashboard shows
      for a module is its most recent one. */
  lemma ModuleAttemptIsLatest(attempts: seq<UserAttempt>, moduleId: string, k: nat)
    requires NewestFirst(attempts)
    requires k < |attempts| && ForModule(moduleId, attempts[k])
    ensures GetModuleAttempt(attempts, moduleId).Some?
    ensures attempts[k].data.completedAt <= GetModuleAttempt(attempts, moduleId).value.data.completedAt
  {
    var p := a => ForModule(moduleId, a);
    var r := Find(attempts, p);
    assert p(attempts[k]);
    var i :| 0 <= i < |attempts| && attempts[i] == r.value && p(attempts[i]) && forall j :: 0 <= j < i ==> !p(attempts[j]);
    assert i <= k;
  }

  // ---------------------------------------------------------------------
  // Percentages and colour bands
  // ---------------------------------------------------------------------

  /** Every fetched attempt has at least one question. */
  predicate WellFormed(attempts: seq<UserAttempt>)
  {
    forall i :: 0 <= i < |attempts| ==> attempts[i].data.totalQuestions > 0
  }

  /** No stored score exceeds its attempt's question count. */
  predicate WithinTotals(attempts: seq<UserAttempt>)
  {
    forall i :: 0 <= i < |attempts| ==> attempts[i].data.score <= attempts[i].data.totalQuestions
  }

  datatype Band = Green | Yellow | Red

  /** The badge colour: green from 70, yellow from 50, red below. */
  function ScoreBand(percentage: int): (b: Band)
    ensures b == Green <==> ExamResults.IsPassed(percentage)
    ensures b == Yellow <==> ExamResults.GetGrade(percentage) in {ExamResults.C, ExamResults.D}
    ensures b == Red <==> ExamResults.GetGrade(percentage) == ExamResults.F
  {
    if percentage >= 70 then Green
    else if percentage >= 50 then Yellow
    else Red
  }

  /** A higher percentage never gets a worse colour. */
  lemma ScoreBandMonotone(p1: int, p2: int)
    requires p1 <= p2
    ensures ScoreBand(p1) == Green ==> ScoreBand(p2) == Green
    ensures ScoreBand(p2) == Red ==> ScoreBand(p1) == Red
  {
  }

  datatype Badge = Badge(percentage: int, band: Band)

  datatype ModuleCard = ModuleCard(examModule: Module, badge: Option<Badge>, buttonLabel: string)

  /** The attempt a module's card shows, if any, has at least one question
      (otherwise the source's percentage is NaN). */
  predicate ShownAttemptScored(m: Module, attempts: seq<UserAttempt>)
  {
    GetModuleAttempt(attempts, m.id).None? || GetModuleAttempt(attempts, m.id).value.data.totalQuestions > 0
  }

  /** One module card: a badge for the attempt `getModuleAttempt` finds
      (the newest one, by ModuleAttemptIsLatest), if any, and the button
      label. */
  function Card(m: Module, attempts: seq<UserAttempt>): (c: ModuleCard)
    requires ShownAttemptScored(m, attempts)
    ensures c.examModule == m
    ensures c.badge.None? <==> forall i :: 0 <= i < |attempts| ==> !ForModule(m.id, attempts[i])
    ensures c.buttonLabel == "Retake Exam" <==> c.badge.Some?
    ensures c.buttonLabel == "Retake Exam" || c.buttonLabel == "Start Exam"
    ensures c.badge.Some? ==>
      var a := GetModuleAttempt(attempts, m.id).value;
      c.badge.value.percentage == ExamResults.Percentage(a.data.score, a.data.totalQuestions)
      && c.badge.value.band == ScoreBand(c.badge.value.percentage)
    ensures c.badge.Some? && WithinTotals(attempts) ==> 0 <= c.badge.value.percentage <= 100
  {
    match GetModuleAttempt(attempts, m.id)
    case None => ModuleCard(m, None, "Start Exam")
    case Some(a) =>
      var p := ExamResults.Percentage(a.data.score, a.data.totalQuestions);
      var c := ModuleCard(m, Some(Badge(p, ScoreBand(p))), "Retake Exam");
      if WithinTotals(attempts) then
        ExamResults.PercentageInRange(a.data.score, a.data.totalQuestions); c
      else c
  }

  /** With attempts newest first, the badge shows the percentage of the
      module's most recent attempt: any attempt at the module that is
      strictly newer than every other one is the one on the card. */
  lemma CardShowsNewest(m: Module, attempts: seq<UserAttempt>, k: nat)
    requires NewestFirst(attempts) && ShownAttemptScored(m, attempts)
    requires k < |attempts| && ForModule(m.id, attempts[k])
    requires forall j :: 0 <= j < |attempts| && j != k && ForModule(m.id, attempts[j]) ==>
      attempts[j].data.completedAt < attempts[k].data.completedAt
    ensures Card(m, attempts).badge ==
      Some(Badge(ExamResults.Percentage(attempts[k].data.score, attempts[k].data.totalQuestions),
                 ScoreBand(ExamResults.Percentage(attempts[k].data.score, attempts[k].data.totalQuestions))))
  {
    ModuleAttemptIsLatest(attempts, m.id, k);
    var a := GetModuleAttempt(attempts, m.id).value;
    var i :| 0 <= i < |attempts| && attempts[i] == a;
    assert i == k;
  }

  // ---------------------------------------------------------------------
  // Recent attempts
  // ---------------------------------------------------------------------

  /** `userAttempts.slice(0, 5)`. */
  function RecentAttempts(attempts: seq<UserAttempt>): (r: seq<UserAttempt>)
    ensures |r| == if |attempts| < 5 then |attempts| else 5
    ensures r == attempts[..|r|]
  {
    if |attempts| < 5 then attempts else attempts[..5]
  }

  /** With attempts newest first, no attempt left out of the recent table
      is newer than one shown in it. */
  lemma RecentAreNewest(attempts: seq<UserAttempt>)
    requires NewestFirst(attempts)
    ensures var n := |RecentAttempts(attempts)|;
      forall i, j :: 0 <= i < n <= j < |attempts| ==> attempts[j].data.completedAt <= attempts[i].data.completedAt
  {
  }

  datatype RecentRow = RecentRow(
    moduleTitle: Option<string>,
    score: nat,
    totalQuestions: nat,
    percentage: int,
    band: Band,
    timeTakenMinutes: int,
    completedAt: Timestamp)

  /** One row of the recent-attempts table; the module title is missing
      when no fetched module has the attempt's module id. */
  function Row(a: UserAttempt, modules: seq<Module>): (row: RecentRow)
    requires a.data.totalQuestions > 0
    ensures row.moduleTitle.None? <==> forall i :: 0 <= i < |modules| ==> modules[i].id != a.data.moduleId
    ensures row.moduleTitle.Some? ==> exists m :: m in modules && m.id == a.data.moduleId && m.title == row.moduleTitle.value
    ensures row.band == ScoreBand(row.percentage)
    ensures row.percentage == ExamResults.Percentage(a.data.score, a.data.totalQuestions)
    ensures a.data.score <= a.data.totalQuestions ==> 0 <= row.percentage <= 100
    ensures row.score == a.data.score && row.totalQuestions == a.data.totalQuestions
    ensures row.timeTakenMinutes == a.data.timeTakenMinutes && row.completedAt == a.data.completedAt
  {
    var m := Find(modules, (m: Module) => m.id == a.data.moduleId);
    var title := if m.Some? then Some(m.value.title) else None;
    var p := ExamResults.Percentage(a.data.score, a.data.totalQuestions);
    var row := RecentRow(title, a.data.score, a.data.totalQuestions, p, ScoreBand(p), a.data.timeTakenMinutes, a.data.completedAt);
    if a.data.score <= a.data.totalQuestions then
      ExamResults.PercentageInRange(a.data.score, a.data.totalQuestions); row
    else row
  }

  // ---------------------------------------------------------------------
  // The average score
  // ---------------------------------------------------------------------

  /** The sum of the attempts' percentages `score / total * 100`, as an
      exact fraction (numerator, denominator). */
  function PercentSum(attempts: seq<UserAttempt>): (r: (nat, nat))
    requires WellFormed(attempts)
    ensures r.1 > 0
    ensures WithinTotals(attempts) ==> r.0 <= 100 * |attempts| * r.1
  {
    if |attempts| == 0 then (0, 1)
    else
      var rest := PercentSum(attempts[1..]);
      var a := attempts[0].data;
      var r := AddPercent(rest, a.score, a.totalQuestions);
      if WithinTotals(attempts) then
        WithinTotalsTail(attempts);
        SumStep(rest.0, rest.1, |attempts| - 1, a.score, a.totalQuestions); r
      else r
  }

  /** `acc + (score / total) * 100` on fractions. */
  function AddPercent(acc: (nat, nat), score: nat, total: nat): (r: (nat, nat))
    requires acc.1 > 0 && total > 0
    ensures r.1 > 0
  {
    (acc.0 * total + 100 * score * acc.1, acc.1 * total)
  }

  lemma WithinTotalsTail(attempts: seq<UserAttempt>)
    requires |attempts| > 0 && WithinTotals(attempts)
    ensures WithinTotals(attempts[1..])
  {
    forall i | 0 <= i < |attempts| - 1 ensures attempts[1..][i].data.score <= attempts[1..][i].data.totalQuestions {
      assert attempts[1..][i] == attempts[i + 1];
    }
  }

  /** Adding one fraction score/total (score <= total) to a sum of k
      percentages keeps it within 100 per term. */
  lemma SumStep(num: nat, den: nat, k: nat, score: nat, total: nat)
    requires den > 0 && total > 0
    requires num <= 100 * k * den && score <= total
    ensures AddPercent((num, den), score, total).0 <= 100 * (k + 1) * AddPercent((num, den), score, total).1
  {
    MulMonotone(num, 100 * k * den, total);
    MulMonotone(score, total, 100 * den);
    assert 100 * (k + 1) * (den * total) == (100 * k * den) * total + total * (100 * den);
  }

  lemma MulMonotone(a: nat, b: nat, c: nat)
    requires a <= b
    ensures a * c <= b * c
  {
  }

  /** The "Average Score" card: 0 with no attempts, otherwise the mean
      percentage rounded half up (`Math.round(sum / count)`), which equals
      the rounded percentage of num out of 100*den*count. */
  function AverageScore(attempts: seq<UserAttempt>): (avg: int)
    requires WellFormed(attempts)
    ensures |attempts| == 0 ==> avg == 0
    ensures WithinTotals(attempts) ==> 0 <= avg <= 100
    ensures |attempts| > 0 ==>
      var s := PercentSum(attempts);
      var n := |attempts|;
      2 * avg * (s.1 * n) - s.1 * n <= 2 * s.0 < 2 * avg * (s.1 * n) + s.1 * n
  {
    if |attempts| == 0 then 0
    else
      var s := PercentSum(attempts);
      var n := |attempts|;
      var avg := ExamResults.Percentage(s.0, 100 * s.1 * n);
      AverageBounds(s.0, s.1, n, avg);
      if WithinTotals(attempts) then
        ExamResults.PercentageInRange(s.0, 100 * s.1 * n); avg
      else avg
  }

  /** Percentage(num, 100*den*n) rounds num/(den*n) itself. */
  lemma AverageBounds(num: nat, den: nat, n: nat, avg: int)
    requires den > 0 && n > 0
    requires 2 * avg * (100 * den * n) - 100 * den * n <= 200 * num < 2 * avg * (100 * den * n) + 100 * den * n
    ensures 2 * avg * (den * n) - den * n <= 2 * num < 2 * avg * (den * n) + den * n
  {
    assert 100 * den * n == 100 * (den * n);
    assert 2 * avg * (100 * (den * n)) == 100 * (2 * avg * (den * n));
  }
}

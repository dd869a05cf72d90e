/**
 * The result page a user sees after a quiz: how many answers were right and
 * wrong, how many questions were left unanswered, the points earned against
 * the points available, the rounded percentage and the pass verdict, the time
 * taken, and, per question, the user's answer and whether its explanation is
 * shown.
 */
module QuizResult {
  import opened Common
  import opened AttemptStats

  /** A graded answer as the result endpoint returns it. */
  datatype ResultAnswer = ResultAnswer(
    questionId: int,
    selectedAnswerId: Option<int>,
    correct: bool,
    pointsEarned: Option<int>)

  /** A question of the quiz as the result page reads it. */
  datatype ResultQuestion = ResultQuestion(id: int, points: Option<int>, explanation: Option<Text>)

  /** The statistics block at the top of the page. */
  datatype Summary = Summary(
    correct: nat,
    incorrect: nat,
    totalQuestions: nat,
    answered: nat,
    unanswered: int,
    pointsEarned: int,
    totalPoints: int,
    percentage: int,
    passed: bool)

  predicate IsRight(a: ResultAnswer) {
    a.correct
  }

  predicate IsWrong(a: ResultAnswer) {
    !a.correct
  }

  /** `a.pointsEarned || 0` */
  function EarnedOf(a: ResultAnswer): int {
    a.pointsEarned.GetOr(0)
  }

  /** `q.points || 0` */
  function PointsOf(q: ResultQuestion): int {
    q.points.GetOr(0)
  }

  /**
   * `totalPoints > 0 ? Math.round((pointsEarned / totalPoints) * 100) : 0`:
   * the share of the points earned, in percent, rounded half up.
   */
  function Percentage(earned: int, total: int): (p: int)
    ensures total <= 0 ==> p == 0
    ensures total > 0 ==> 2 * total * p <= 200 * earned + total < 2 * total * p + 2 * total
  {
    if total > 0 then Percent(earned, total) else 0
  }

  /** The statistics block for the given answers, questions and pass mark. */
  function Summarize(userAnswers: seq<ResultAnswer>, questions: seq<ResultQuestion>, passingScore: int): (r: Summary)
    ensures r.correct + r.incorrect == |userAnswers| == r.answered
    ensures r.totalQuestions == |questions|
    ensures r.unanswered == |questions| - |userAnswers|
    ensures r.passed <==> r.percentage >= passingScore
  {
    CountSplit(userAnswers, IsRight, IsWrong);
    var earned := SumBy(userAnswers, EarnedOf);
    var total := SumBy(questions, PointsOf);
    var percentage := Percentage(earned, total);
    Summary(
      Count(userAnswers, IsRight),
      Count(userAnswers, IsWrong),
      |questions|,
      |userAnswers|,
      |questions| - |userAnswers|,
      earned,
      total,
      percentage,
      percentage >= passingScore)
  }

  /** The "unanswered questions" warning is shown only when it has something to say. */
  predicate ShowsUnansweredWarning(s: Summary) {
    s.unanswered > 0
  }

  /**
   * The warning shows exactly when there are fewer answers than questions; the
   * count is not clamped, so more answers than questions give a negative count
   * and no warning.
   */
  lemma UnansweredWarningIff(userAnswers: seq<ResultAnswer>, questions: seq<ResultQuestion>, passingScore: int)
    ensures ShowsUnansweredWarning(Summarize(userAnswers, questions, passingScore)) <==> |userAnswers| < |questions|
    ensures |userAnswers| > |questions| ==> Summarize(userAnswers, questions, passingScore).unanswered < 0
  {
  }

  /** The correct count is the number of answers marked correct. */
  lemma CorrectCountsRightAnswers(userAnswers: seq<ResultAnswer>, questions: seq<ResultQuestion>, passingScore: int, i: int)
    requires 0 <= i < |userAnswers|
    ensures Summarize(userAnswers, questions, passingScore).correct == Count(userAnswers, IsRight)
    ensures userAnswers[i].correct ==> Summarize(userAnswers, questions, passingScore).correct > 0
    ensures !userAnswers[i].correct ==> Summarize(userAnswers, questions, passingScore).incorrect > 0
  {
    assert userAnswers[i] in userAnswers;
    if userAnswers[i].correct {
      assert userAnswers[i] in Filter(userAnswers, IsRight);
    } else {
      assert userAnswers[i] in Filter(userAnswers, IsWrong);
    }
  }

  /** Answers graded one after the other add up: the earned points split over any cut. */
  lemma EarnedPointsSplit(a: seq<ResultAnswer>, b: seq<ResultAnswer>, questions: seq<ResultQuestion>, passingScore: int)
    ensures Summarize(a + b, questions, passingScore).pointsEarned
      == Summarize(a, questions, passingScore).pointsEarned + Summarize(b, questions, passingScore).pointsEarned
  {
    SumByAppend(a, b, EarnedOf);
  }

  /** Earning no more points than are available gives a percentage in [0, 100]. */
  lemma PercentageInRange(earned: int, total: int)
    requires 0 <= earned <= total
    ensures 0 <= Percentage(earned, total) <= 100
  {
    if total > 0 {
      PercentInRange(earned, total);
    }
  }

  /** More points earned never lower the percentage. */
  lemma PercentageMonotone(e1: int, e2: int, total: int)
    requires e1 <= e2
    ensures Percentage(e1, total) <= Percentage(e2, total)
  {
    if total > 0 {
      RoundDivMonotone(100 * e1, 100 * e2, total);
    }
  }

  /** A user who passed still passes with more points earned on the same quiz. */
  lemma PassingIsMonotone(a: seq<ResultAnswer>, b: seq<ResultAnswer>, questions: seq<ResultQuestion>, passingScore: int)
    requires SumBy(a, EarnedOf) <= SumBy(b, EarnedOf)
    requires Summarize(a, questions, passingScore).passed
    ensures Summarize(b, questions, passingScore).passed
  {
    PercentageMonotone(SumBy(a, EarnedOf), SumBy(b, EarnedOf), SumBy(questions, PointsOf));
  }

  /** All the available points earned is exactly 100 percent. */
  lemma FullMarks(total: int)
    requires total > 0
    ensures Percentage(total, total) == 100
  {
    RoundDivBetween(100 * total, total, 100, 100);
  }

  // ---------------------------------------------------------------------------
  // Time taken

  /**
   * `Math.floor((completedAt - startedAt) / 1000)` when the attempt has an end
   * time, else 0.
   */
  function TimeTakenSeconds(startedAt: int, completedAt: Option<int>): (t: int)
    ensures completedAt.None? ==> t == 0
    ensures completedAt.Some? ==> 1000 * t <= completedAt.value - startedAt < 1000 * t + 1000
  {
    if completedAt.Some? then (completedAt.value - startedAt) / 1000 else 0
  }

  /** `Math.floor(seconds / 60)` and `seconds % 60` (a truncating remainder). */
  function SecondsParts(seconds: int): (r: (int, int))
    ensures seconds >= 0 ==> 0 <= r.1 < 60 && 60 * r.0 + r.1 == seconds
  {
    (seconds / 60, JsRem(seconds, 60))
  }

  /** `${mins}m ${secs}s` */
  function FormatSeconds(seconds: int): Text {
    var (m, s) := SecondsParts(seconds);
    IntToString(m) + "m " + IntToString(s) + "s"
  }

  /** The text starts with the whole minutes, which parseInt reads back. */
  lemma FormatSecondsReadsBack(seconds: int)
    ensures ParseInt(FormatSeconds(seconds)) == Num(SecondsParts(seconds).0)
  {
    var (m, s) := SecondsParts(seconds);
    var rest := "m " + IntToString(s) + "s";
    assert FormatSeconds(seconds) == IntToString(m) + rest;
    ParseIntReadsNumber(m, rest);
  }

  /**
   * The result page and the administrators' pages print the same time for an
   * attempt that ends after it starts: rounding to whole seconds first and to
   * whole minutes afterwards loses nothing.
   */
  lemma SameElapsedTimeAsAdminPages(startedAt: int, completedAt: int)
    requires startedAt <= completedAt
    ensures FormatSeconds(TimeTakenSeconds(startedAt, Some(completedAt))) == FormatElapsed(startedAt, Some(completedAt))
  {
    var d := completedAt - startedAt;
    var secs := d / 1000;
    var (m, s) := ElapsedParts(d);
    DivUnique(secs, 60, m, s);
    assert SecondsParts(secs) == (m, s);
  }

  // ---------------------------------------------------------------------------
  // Per-question review

  predicate AnswersQuestion(a: ResultAnswer, questionId: int) {
    a.questionId == questionId
  }

  /** `userAnswers.find(ua => ua.questionId === questionId)` */
  function FindAnswer(userAnswers: seq<ResultAnswer>, questionId: int): (r: Option<ResultAnswer>)
    ensures r.None? <==> forall i :: 0 <= i < |userAnswers| ==> userAnswers[i].questionId != questionId
    ensures r.Some? ==> r.value in userAnswers && r.value.questionId == questionId
    decreases |userAnswers|
  {
    if userAnswers == [] then None
    else if userAnswers[0].questionId == questionId then Some(userAnswers[0])
    else
      var rest := FindAnswer(userAnswers[1..], questionId);
      assert forall i :: 1 <= i < |userAnswers| ==> userAnswers[i] == userAnswers[1..][i - 1];
      rest
  }

  /** The answer found is the first one for that question. */
  lemma {:induction false} FindAnswerIsFirst(userAnswers: seq<ResultAnswer>, questionId: int, i: int)
    requires 0 <= i < |userAnswers| && userAnswers[i].questionId == questionId
    requires forall j :: 0 <= j < i ==> userAnswers[j].questionId != questionId
    ensures FindAnswer(userAnswers, questionId) == Some(userAnswers[i])
    decreases i
  {
    if i > 0 {
      FindAnswerIsFirst(userAnswers[1..], questionId, i - 1);
    }
  }

  /** `userAnswer?.correct || false` */
  predicate IsAnsweredCorrectly(userAnswers: seq<ResultAnswer>, questionId: int) {
    var found := FindAnswer(userAnswers, questionId);
    found.Some? && found.value.correct
  }

  /** `question.explanation && !isCorrect` */
  predicate ShowsExplanation(q: ResultQuestion, userAnswers: seq<ResultAnswer>) {
    q.explanation.Some? && q.explanation.value != [] && !IsAnsweredCorrectly(userAnswers, q.id)
  }

  /**
   * An explanation is shown for every question with one that was answered
   * wrongly or not at all, and never for a question answered correctly.
   */
  lemma ExplanationOnlyWhenNotCorrect(q: ResultQuestion, userAnswers: seq<ResultAnswer>)
    requires q.explanation.Some? && q.explanation.value != []
    ensures (forall i :: 0 <= i < |userAnswers| ==> userAnswers[i].questionId != q.id) ==> ShowsExplanation(q, userAnswers)
    ensures ShowsExplanation(q, userAnswers) <==> !IsAnsweredCorrectly(userAnswers, q.id)
  {
  }
}

/**
 * The quiz-taking page: the answers recorded so far, the questions whose
 * answer is being saved, question navigation, the countdown and submission.
 *
 * Every server call is an outcome passed in by the caller. Saving an answer is
 * split in two steps, as the page does around its `await`: the optimistic
 * update when the choice is made, and the confirmation or roll-back when the
 * server has replied.
 */
module QuizTaking {
  import opened Common

  datatype PageState = Loading | PreQuiz | Taking | Submitting | Completed

  /** The id of the stored user answer, and the option it selects. */
  datatype AnswerRecord = AnswerRecord(userAnswerId: int, selectedAnswerId: int)

  /** The user answer id recorded for a first answer until the server assigns one. */
  const PLACEHOLDER_ID: int := -1

  /** The quiz fields this page reads. */
  datatype QuizInfo = QuizInfo(id: int, durationMinutes: int)

  /** The attempt fields this page reads. */
  datatype AttemptInfo = AttemptInfo(id: int, remainingSeconds: Option<int>)

  /** A stored user answer returned when an attempt is resumed; 0 stands for a missing field. */
  datatype StoredAnswer = StoredAnswer(id: int, questionId: int, selectedAnswerId: int)

  /** The server's reply to saving an answer: the saved record's id, or an error. */
  datatype SaveOutcome = Saved(responseId: int) | SaveFailed

  // ---------------------------------------------------------------------------
  // Resuming an attempt

  predicate Usable(ua: StoredAnswer) {
    ua.questionId != 0 && ua.selectedAnswerId != 0 && ua.id != 0
  }

  /** The answer map a resumed attempt starts from: usable answers, later ones winning. */
  function ResumedAnswers(stored: seq<StoredAnswer>): map<int, AnswerRecord>
    decreases |stored|
  {
    if stored == [] then map[]
    else
      var ua := stored[|stored| - 1];
      var m := ResumedAnswers(stored[..|stored| - 1]);
      if Usable(ua) then m[ua.questionId := AnswerRecord(ua.id, ua.selectedAnswerId)] else m
  }

  /** Builds the answer map of a resumed attempt, one stored answer at a time. */
  method BuildAnswerMap(stored: seq<StoredAnswer>) returns (answerMap: map<int, AnswerRecord>)
    ensures answerMap == ResumedAnswers(stored)
  {
    answerMap := map[];
    var i := 0;
    while i < |stored|
      invariant 0 <= i <= |stored|
      invariant answerMap == ResumedAnswers(stored[..i])
    {
      var ua := stored[i];
      assert stored[..i + 1][..i] == stored[..i];
      if ua.questionId != 0 && ua.selectedAnswerId != 0 && ua.id != 0 {
        answerMap := answerMap[ua.questionId := AnswerRecord(ua.id, ua.selectedAnswerId)];
      }
      i := i + 1;
    }
    assert stored[..|stored|] == stored;
  }

  /**
   * A question has a resumed answer exactly when some usable stored answer is
   * for it, and then the record is that of the last such stored answer.
   */
  lemma {:induction false} ResumedAnswersSpec(stored: seq<StoredAnswer>, q: int)
    ensures q in ResumedAnswers(stored) <==>
      exists k :: 0 <= k < |stored| && Usable(stored[k]) && stored[k].questionId == q
    ensures q in ResumedAnswers(stored) ==>
      exists k :: 0 <= k < |stored| && Usable(stored[k]) && stored[k].questionId == q
        && ResumedAnswers(stored)[q] == AnswerRecord(stored[k].id, stored[k].selectedAnswerId)
        && forall j :: k < j < |stored| ==> !(Usable(stored[j]) && stored[j].questionId == q)
    decreases |stored|
  {
    if stored != [] {
      var n := |stored| - 1;
      var init := stored[..n];
      ResumedAnswersSpec(init, q);
      assert forall k :: 0 <= k < n ==> init[k] == stored[k];
      if !(Usable(stored[n]) && stored[n].questionId == q) && q in ResumedAnswers(stored) {
        var k :| 0 <= k < |init| && Usable(init[k]) && init[k].questionId == q
          && ResumedAnswers(init)[q] == AnswerRecord(init[k].id, init[k].selectedAnswerId)
          && forall j :: k < j < |init| ==> !(Usable(init[j]) && init[j].questionId == q);
        assert Usable(stored[k]) && stored[k].questionId == q;
      }
    }
  }

  // ---------------------------------------------------------------------------
  // The countdown

  /**
   * One tick of the countdown as the interval callback computes it: the new
   * time remaining, and whether the quiz is to be submitted automatically.
   */
  function TickValue(prev: int): (r: (int, bool))
    ensures r.1 <==> prev <= 1
    ensures r.0 == if prev <= 1 then 0 else prev - 1
  {
    if prev <= 1 then (0, true) else (prev - 1, false)
  }

  /** The time remaining after k ticks that did not auto-submit. */
  function AfterTicks(t: int, k: nat): int
    decreases k
  {
    if k == 0 then t else TickValue(AfterTicks(t, k - 1)).0
  }

  /**
   * Starting from t > 0 seconds, the first t - 1 ticks count down without
   * submitting, and the t-th tick reaches 0 and submits.
   */
  lemma {:induction false} CountdownSubmitsAfterExactlyT(t: int, k: nat)
    requires t > 0 && k < t
    ensures AfterTicks(t, k) == t - k
    ensures !TickValue(AfterTicks(t, k)).1 <==> k < t - 1
    ensures k == t - 1 ==> TickValue(AfterTicks(t, k)) == (0, true)
    decreases k
  {
    if k > 0 {
      CountdownSubmitsAfterExactlyT(t, k - 1);
    }
  }

  /** The number of questions the map has no answer for. */
  function UnansweredCount(questionIds: seq<int>, answers: map<int, AnswerRecord>): (n: nat)
    ensures n <= |questionIds|
  {
    Count(questionIds, q => q !in answers)
  }

  /** No question is unanswered exactly when every question has a map entry. */
  lemma UnansweredZeroIff(questionIds: seq<int>, answers: map<int, AnswerRecord>)
    ensures UnansweredCount(questionIds, answers) == 0 <==>
      forall i :: 0 <= i < |questionIds| ==> questionIds[i] in answers
  {
    var missing := Filter(questionIds, q => q !in answers);
    if UnansweredCount(questionIds, answers) != 0 {
      assert missing[0] in questionIds && missing[0] !in answers;
    }
  }

  // ---------------------------------------------------------------------------
  // The page

  class QuizTakingPage {
    var state: PageState
    var quiz: Option<QuizInfo>
    var attempt: Option<AttemptInfo>
    var questionIds: seq<int>
    var currentQuestionIndex: int
    /** Question id to the answer recorded for it. */
    var answers: map<int, AnswerRecord>
    /** Questions whose answer is being saved. */
    var submittingAnswers: set<int>
    var timeRemaining: int
    var showSubmitDialog: bool

    /**
     * The question shown is one of the questions (or the index is 0 when there
     * are none), a page still showing the preview has no attempt and no
     * questions, and once the quiz is being taken there are both a quiz and
     * an attempt.
     */
    predicate Valid()
      reads this
    {
      0 <= currentQuestionIndex
      && (currentQuestionIndex < |questionIds| || currentQuestionIndex == 0)
      && (state == PreQuiz ==> attempt.None? && questionIds == [])
      && (state != PreQuiz ==> quiz.Some? && attempt.Some?)
    }

    /** The quiz preview, before any attempt exists. */
    constructor Preview(q: QuizInfo)
      ensures Valid()
      ensures state == PreQuiz && quiz == Some(q) && attempt == None
      ensures questionIds == [] && currentQuestionIndex == 0
      ensures answers == map[] && submittingAnswers == {}
      ensures timeRemaining == 0 && !showSubmitDialog
    {
      state := PreQuiz;
      quiz := Some(q);
      attempt := None;
      questionIds := [];
      currentQuestionIndex := 0;
      answers := map[];
      submittingAnswers := {};
      timeRemaining := 0;
      showSubmitDialog := false;
    }

    /** Resuming an attempt in progress, with the answers already stored for it. */
    constructor Resume(q: QuizInfo, a: AttemptInfo, ids: seq<int>, stored: seq<StoredAnswer>)
      ensures Valid()
      ensures state == Taking && quiz == Some(q) && attempt == Some(a)
      ensures questionIds == ids && currentQuestionIndex == 0
      ensures answers == ResumedAnswers(stored) && submittingAnswers == {}
      ensures timeRemaining == OrZeroSeconds(a.remainingSeconds) && !showSubmitDialog
    {
      state := Taking;
      quiz := Some(q);
      attempt := Some(a);
      questionIds := ids;
      currentQuestionIndex := 0;
      var m := BuildAnswerMap(stored);
      answers := m;
      submittingAnswers := {};
      timeRemaining := OrZeroSeconds(a.remainingSeconds);
      showSubmitDialog := false;
    }

    /**
     * Starting the quiz. Without a quiz or a signed-in user nothing happens;
     * when creating the attempt or loading the quiz with its questions fails
     * nothing changes either. Otherwise `created` holds the new attempt, the
     * quiz as loaded again with its questions, and those questions' ids: the
     * page shows that quiz and is taking it, with the attempt's remaining time
     * or, when the attempt has none, the duration of the quiz shown before.
     * The start button is only offered on the preview.
     */
    method StartQuiz(signedIn: bool, created: Option<(AttemptInfo, QuizInfo, seq<int>)>)
      requires Valid()
      requires state == PreQuiz
      modifies this
      ensures Valid()
      ensures if old(quiz).Some? && signedIn && created.Some? then
          state == Taking && attempt == Some(created.value.0) && quiz == Some(created.value.1)
          && questionIds == created.value.2
          && timeRemaining == StartingTime(created.value.0, old(quiz).value)
          && currentQuestionIndex == old(currentQuestionIndex)
        else
          state == old(state) && attempt == old(attempt) && quiz == old(quiz) && questionIds == old(questionIds)
          && timeRemaining == old(timeRemaining) && currentQuestionIndex == old(currentQuestionIndex)
      ensures answers == old(answers) && submittingAnswers == old(submittingAnswers)
      ensures showSubmitDialog == old(showSubmitDialog)
    {
      if quiz.None? || !signedIn {
        return;
      }
      if created.Some? {
        var (a, withQuestions, ids) := created.value;
        var previous := quiz.value;
        quiz := Some(withQuestions);
        questionIds := ids;
        attempt := Some(a);
        timeRemaining := StartingTime(a, previous);
        state := Taking;
      }
    }

    /**
     * The first half of choosing an answer: the optimistic update. Nothing
     * happens without an attempt or while this question's answer is being
     * saved. Otherwise the question gets the chosen option at once, keeping
     * its stored id (or the placeholder for a first answer), and is marked as
     * being saved. `prior` is the record the question had before, which
     * decides between updating and submitting and is restored on failure.
     */
    method BeginAnswerSelect(questionId: int, answerId: int) returns (started: bool, prior: Option<AnswerRecord>)
      requires Valid()
      modifies this
      ensures Valid()
      ensures started <==> old(attempt).Some? && questionId !in old(submittingAnswers)
      ensures prior == if questionId in old(answers) then Some(old(answers)[questionId]) else None
      ensures started ==>
        answers == old(answers)[questionId := AnswerRecord(
          if prior.Some? then prior.value.userAnswerId else PLACEHOLDER_ID, answerId)]
        && submittingAnswers == old(submittingAnswers) + {questionId}
      ensures !started ==> answers == old(answers) && submittingAnswers == old(submittingAnswers)
      ensures state == old(state) && quiz == old(quiz) && attempt == old(attempt)
      ensures questionIds == old(questionIds) && currentQuestionIndex == old(currentQuestionIndex)
      ensures timeRemaining == old(timeRemaining) && showSubmitDialog == old(showSubmitDialog)
    {
      prior := if questionId in answers then Some(answers[questionId]) else None;
      if attempt.None? || questionId in submittingAnswers {
        return false, prior;
      }
      var optimistic := AnswerRecord(if prior.Some? then prior.value.userAnswerId else PLACEHOLDER_ID, answerId);
      answers := answers[questionId := optimistic];
      submittingAnswers := submittingAnswers + {questionId};
      started := true;
    }

    /**
     * The second half of choosing an answer, once the server has replied. On
     * success a first answer takes the id the server assigned, while an update
     * keeps the stored id. On failure the question's record goes back to
     * `prior`, or is removed when there was none. Either way the question is no
     * longer being saved, and no other question's record changes.
     */
    method FinishAnswerSelect(questionId: int, answerId: int, prior: Option<AnswerRecord>, outcome: SaveOutcome)
      requires Valid()
      requires questionId in submittingAnswers
      modifies this
      ensures Valid()
      ensures submittingAnswers == old(submittingAnswers) - {questionId}
      ensures outcome.Saved? ==>
        answers == old(answers)[questionId := AnswerRecord(
          if prior.Some? then prior.value.userAnswerId else outcome.responseId, answerId)]
      ensures outcome.SaveFailed? && prior.Some? ==> answers == old(answers)[questionId := prior.value]
      ensures outcome.SaveFailed? && prior.None? ==> answers == old(answers) - {questionId}
      ensures state == old(state) && quiz == old(quiz) && attempt == old(attempt)
      ensures questionIds == old(questionIds) && currentQuestionIndex == old(currentQuestionIndex)
      ensures timeRemaining == old(timeRemaining) && showSubmitDialog == old(showSubmitDialog)
    {
      match outcome {
        case Saved(responseId) =>
          var id := if prior.Some? then prior.value.userAnswerId else responseId;
          answers := answers[questionId := AnswerRecord(id, answerId)];
        case SaveFailed =>
          if prior.Some? {
            answers := answers[questionId := prior.value];
          } else {
            answers := answers - {questionId};
          }
      }
      submittingAnswers := submittingAnswers - {questionId};
    }

    /**
     * Choosing an answer from start to finish. When the choice is accepted,
     * the question is no longer being saved afterwards; a save that succeeded
     * records the chosen option, and a save that failed leaves every answer
     * exactly as it was before the choice.
     */
    method SelectAnswer(questionId: int, answerId: int, outcome: SaveOutcome)
      requires Valid()
      modifies this
      ensures Valid()
      ensures submittingAnswers == old(submittingAnswers)
      ensures old(attempt).None? || questionId in old(submittingAnswers) || outcome.SaveFailed? ==>
        answers == old(answers)
      ensures old(attempt).Some? && questionId !in old(submittingAnswers) && outcome.Saved? ==>
        questionId in answers && answers[questionId].selectedAnswerId == answerId
        && answers[questionId].userAnswerId ==
          (if questionId in old(answers) then old(answers)[questionId].userAnswerId else outcome.responseId)
        && (forall q :: q != questionId ==>
              (q in answers <==> q in old(answers)) && (q in answers ==> answers[q] == old(answers)[q]))
      ensures state == old(state) && quiz == old(quiz) && attempt == old(attempt)
      ensures questionIds == old(questionIds) && currentQuestionIndex == old(currentQuestionIndex)
      ensures timeRemaining == old(timeRemaining) && showSubmitDialog == old(showSubmitDialog)
    {
      var started, prior := BeginAnswerSelect(questionId, answerId);
      if started {
        FinishAnswerSelect(questionId, answerId, prior, outcome);
        if outcome.SaveFailed? && prior.None? {
          assert answers == old(answers);
        }
      }
    }

    /** Next moves forward only when the current question is not the last. */
    method Next()
      requires Valid()
      modifies this`currentQuestionIndex
      ensures Valid()
      ensures currentQuestionIndex ==
        if old(currentQuestionIndex) < |questionIds| - 1 then old(currentQuestionIndex) + 1
        else old(currentQuestionIndex)
    {
      if currentQuestionIndex < |questionIds| - 1 {
        currentQuestionIndex := currentQuestionIndex + 1;
      }
    }

    /** Previous moves back only when the current question is not the first. */
    method Previous()
      requires Valid()
      modifies this`currentQuestionIndex
      ensures Valid()
      ensures currentQuestionIndex ==
        if old(currentQuestionIndex) > 0 then old(currentQuestionIndex) - 1 else old(currentQuestionIndex)
    {
      if currentQuestionIndex > 0 {
        currentQuestionIndex := currentQuestionIndex - 1;
      }
    }

    /** Jumping to a question; the page only offers the indices of its questions. */
    method JumpToQuestion(index: int)
      requires Valid()
      requires 0 <= index < |questionIds|
      modifies this`currentQuestionIndex
      ensures Valid()
      ensures currentQuestionIndex == index
    {
      currentQuestionIndex := index;
    }

    function Unanswered(): (n: nat)
      reads this
      ensures n <= |questionIds|
    {
      UnansweredCount(questionIds, answers)
    }

    /**
     * The first half of submitting: without a quiz or an attempt nothing
     * happens; otherwise the page is submitting and the dialog is closed.
     */
    method BeginSubmit() returns (started: bool)
      requires Valid()
      modifies this`state, this`showSubmitDialog
      ensures Valid()
      ensures started <==> quiz.Some? && attempt.Some?
      ensures started ==> state == Submitting && !showSubmitDialog
      ensures !started ==> state == old(state) && showSubmitDialog == old(showSubmitDialog)
    {
      if quiz.None? || attempt.None? {
        return false;
      }
      state := Submitting;
      showSubmitDialog := false;
      started := true;
    }

    /** The second half: completed when the server accepted, back to taking otherwise. */
    method FinishSubmit(accepted: bool)
      requires Valid()
      requires state == Submitting
      modifies this`state
      ensures Valid()
      ensures state == if accepted then Completed else Taking
    {
      state := if accepted then Completed else Taking;
    }

    /** Submitting from start to finish. */
    method Submit(accepted: bool)
      requires Valid()
      modifies this`state, this`showSubmitDialog
      ensures Valid()
      ensures quiz.None? || attempt.None? ==> state == old(state) && showSubmitDialog == old(showSubmitDialog)
      ensures quiz.Some? && attempt.Some? ==>
        !showSubmitDialog && state == (if accepted then Completed else Taking)
    {
      var started := BeginSubmit();
      if started {
        FinishSubmit(accepted);
      }
    }

    /**
     * The submit button: with unanswered questions it only opens the
     * confirmation dialog; with none it submits at once.
     */
    method SubmitClick(accepted: bool)
      requires Valid()
      modifies this`state, this`showSubmitDialog
      ensures Valid()
      ensures old(Unanswered()) > 0 ==> showSubmitDialog && state == old(state)
      ensures old(Unanswered()) == 0 && quiz.Some? && attempt.Some? ==>
        !showSubmitDialog && state == (if accepted then Completed else Taking)
      ensures old(Unanswered()) == 0 && (quiz.None? || attempt.None?) ==>
        state == old(state) && showSubmitDialog == old(showSubmitDialog)
    {
      if Unanswered() > 0 {
        showSubmitDialog := true;
      } else {
        Submit(accepted);
      }
    }

    /**
     * One second of the countdown, which runs only while taking the quiz with
     * time left. A value of at most 1 becomes 0 and submits automatically with
     * the given server reply; any other value goes down by one.
     */
    method Tick(accepted: bool) returns (autoSubmitted: bool)
      requires Valid()
      requires state == Taking && timeRemaining > 0
      modifies this`timeRemaining, this`state, this`showSubmitDialog
      ensures Valid()
      ensures autoSubmitted <==> old(timeRemaining) <= 1
      ensures timeRemaining == if autoSubmitted then 0 else old(timeRemaining) - 1
      ensures !autoSubmitted ==> state == Taking && showSubmitDialog == old(showSubmitDialog)
      ensures autoSubmitted && quiz.Some? && attempt.Some? ==>
        !showSubmitDialog && state == (if accepted then Completed else Taking)
    {
      var (next, submit) := TickValue(timeRemaining);
      timeRemaining := next;
      autoSubmitted := submit;
      if submit {
        Submit(accepted);
      }
    }
  }

  /** `remainingSeconds || 0` */
  function OrZeroSeconds(remaining: Option<int>): int {
    remaining.GetOr(0)
  }

  /** `attempt.remainingSeconds || quiz.durationMinutes * 60` */
  function StartingTime(a: AttemptInfo, q: QuizInfo): (t: int)
    ensures a.remainingSeconds.Some? && a.remainingSeconds.value != 0 ==> t == a.remainingSeconds.value
    ensures !(a.remainingSeconds.Some? && a.remainingSeconds.value != 0) ==> t == q.durationMinutes * 60
  {
    if a.remainingSeconds.Some? && a.remainingSeconds.value != 0 then a.remainingSeconds.value
    else q.durationMinutes * 60
  }
}

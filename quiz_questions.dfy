/**
 * The moderators' question editor of one quiz: the question dialog opened
 * blank or loaded from a question with its answers in display order, and
 * saving, which creates the question with its answers numbered by position,
 * or updates the question and then, one after the other, each answer that
 * already exists on the server.
 */
module QuizQuestions {
  import opened Common
  import opened Types
  import opened Sorting
  import opened QuestionForm

  datatype Answer = Answer(id: int, answerText: Text, correct: bool, displayOrder: int)

  datatype Question = Question(
    id: int,
    questionText: Text,
    explanation: Option<Text>,
    points: int,
    answers: seq<Answer>)

  function DisplayOrderOf(a: Answer): int {
    a.displayOrder
  }

  /** An answer as a form row, keeping its id for the update. */
  function FieldOf(a: Answer): AnswerField {
    AnswerField(Some(a.id), a.answerText, a.correct)
  }

  function FieldsOf(answers: seq<Answer>): (r: seq<AnswerField>)
    ensures |r| == |answers|
    ensures forall k :: 0 <= k < |r| ==> r[k] == FieldOf(answers[k])
  {
    seq(|answers|, k requires 0 <= k < |answers| => FieldOf(answers[k]))
  }

  /**
   * handleEditQuestion's form: the question's text and points, its
   * explanation or nothing, and its answers sorted by display order, or four
   * blank rows when it has none.
   */
  function EditForm(question: Question): (f: FormState)
    ensures f.questionText == question.questionText && f.points == question.points
    ensures f.explanation == question.explanation.GetOr("")
    ensures question.answers == [] ==> f.answers == BLANK_ANSWERS
    ensures question.answers != [] ==>
      |f.answers| == |question.answers| && forall k :: 0 <= k < |f.answers| ==> f.answers[k].id.Some?
  {
    FormState(
      question.questionText,
      question.explanation.GetOr(""),
      question.points,
      if question.answers == [] then BLANK_ANSWERS else FieldsOf(SortBy(question.answers, DisplayOrderOf)))
  }

  /**
   * The rows of a question with answers are its answers, each once, in
   * ascending display order.
   */
  lemma EditFormSortsAnswers(question: Question)
    requires question.answers != []
    ensures exists sorted ::
      multiset(sorted) == multiset(question.answers) && SortedBy(sorted, DisplayOrderOf)
      && EditForm(question).answers == FieldsOf(sorted)
  {
    var sorted := SortBy(question.answers, DisplayOrderOf);
    assert EditForm(question).answers == FieldsOf(sorted);
  }

  // ---------------------------------------------------------------------------
  // Requests

  datatype Request =
    | UpdateQuestion(questionId: int, questionText: Text, explanation: Option<Text>, points: int)
    | UpdateAnswer(questionId: int, answerId: int, answerText: Text, correct: bool, displayOrder: int)
    | CreateQuestion(
        quizId: int,
        questionText: Text,
        explanation: Option<Text>,
        points: int,
        questionOrder: int,
        answers: seq<AnswerPayload>,
        active: bool)

  /** The question part of an edit: text, explanation or nothing, and points, without answers. */
  function QuestionUpdate(questionId: int, form: FormState): Request {
    UpdateQuestion(questionId, form.questionText, OrAbsent(form.explanation), form.points)
  }

  /**
   * The creation request: the new question goes after the `count` questions
   * already listed, its answers numbered by row, and it is active.
   */
  function CreateRequest(quizId: int, form: FormState, count: int): (r: Request)
    ensures r.CreateQuestion? && r.questionOrder == count && r.active
    ensures r.answers == AnswerPayloads(form.answers)
    ensures r.questionText == form.questionText && r.points == form.points
    ensures r.explanation.None? <==> form.explanation == []
  {
    CreateQuestion(quizId, form.questionText, OrAbsent(form.explanation), form.points, count, AnswerPayloads(form.answers), true)
  }

  /**
   * The answer updates of an edit, in row order: one for each row whose id is
   * present and not 0, numbered by the row.
   */
  function AnswerUpdates(questionId: int, answers: seq<AnswerField>): (r: seq<Request>)
    ensures |r| <= |answers|
    decreases |answers|
  {
    if answers == [] then []
    else
      var n := |answers| - 1;
      AnswerUpdates(questionId, answers[..n])
      + if Truthy(answers[n].id)
        then [UpdateAnswer(questionId, answers[n].id.value, answers[n].answerText, answers[n].correct, n)]
        else []
  }

  /**
   * Every request of r updates an answer of the question, for a row with an
   * id, and carries that row's id, text and mark and its row number.
   */
  predicate UpdatesMatchRows(questionId: int, answers: seq<AnswerField>, r: seq<Request>) {
    forall k :: 0 <= k < |r| ==>
      r[k].UpdateAnswer? && r[k].questionId == questionId && 0 <= r[k].displayOrder < |answers|
      && Truthy(answers[r[k].displayOrder].id)
      && r[k].answerId == answers[r[k].displayOrder].id.value
      && r[k].answerText == answers[r[k].displayOrder].answerText
      && r[k].correct == answers[r[k].displayOrder].correct
  }

  /** The updates of r follow the rows' order. */
  predicate InRowOrder(r: seq<Request>)
    requires forall k :: 0 <= k < |r| ==> r[k].UpdateAnswer?
  {
    forall j, k :: 0 <= j < k < |r| ==> r[j].displayOrder < r[k].displayOrder
  }

  /** The updates are for the rows with an id, with their contents, in row order. */
  lemma {:induction false} AnswerUpdatesSound(questionId: int, answers: seq<AnswerField>)
    ensures UpdatesMatchRows(questionId, answers, AnswerUpdates(questionId, answers))
    ensures InRowOrder(AnswerUpdates(questionId, answers))
    decreases |answers|
  {
    if answers != [] {
      var n := |answers| - 1;
      var init := answers[..n];
      AnswerUpdatesSound(questionId, init);
      var earlier := AnswerUpdates(questionId, init);
      assert forall k :: 0 <= k < |earlier| ==> answers[earlier[k].displayOrder] == init[earlier[k].displayOrder];
    }
  }

  /** Every row with an id is updated, with its own id, text and mark and its row number. */
  lemma {:induction false} AnswerUpdatesComplete(questionId: int, answers: seq<AnswerField>, k: int)
    requires 0 <= k < |answers| && Truthy(answers[k].id)
    ensures UpdateAnswer(questionId, answers[k].id.value, answers[k].answerText, answers[k].correct, k)
      in AnswerUpdates(questionId, answers)
    decreases |answers|
  {
    var n := |answers| - 1;
    if k < n {
      var init := answers[..n];
      assert init[k] == answers[k];
      AnswerUpdatesComplete(questionId, init, k);
    }
  }

  /** The updates for a prefix of the rows are a prefix of the updates for all rows. */
  lemma {:induction false} AnswerUpdatesPrefix(questionId: int, answers: seq<AnswerField>, n: int)
    requires 0 <= n <= |answers|
    ensures AnswerUpdates(questionId, answers[..n]) <= AnswerUpdates(questionId, answers)
    decreases |answers| - n
  {
    if n == |answers| {
      assert answers[..n] == answers;
    } else {
      AnswerUpdatesPrefix(questionId, answers, n + 1);
      var longer := answers[..n + 1];
      assert longer[..|longer| - 1] == answers[..n];
      var a := AnswerUpdates(questionId, answers[..n]);
      var b := AnswerUpdates(questionId, longer);
      var c := AnswerUpdates(questionId, answers);
      assert a == b[..|a|];
      assert b == c[..|b|];
      assert c[..|b|][..|a|] == c[..|a|];
    }
  }

  /** Rows without ids give no answer update. */
  lemma {:induction false} NoIdsNoUpdates(questionId: int, answers: seq<AnswerField>)
    requires forall k :: 0 <= k < |answers| ==> !Truthy(answers[k].id)
    ensures AnswerUpdates(questionId, answers) == []
    decreases |answers|
  {
    if answers != [] {
      var init := answers[..|answers| - 1];
      assert forall k :: 0 <= k < |init| ==> init[k] == answers[k];
      NoIdsNoUpdates(questionId, init);
    }
  }

  /**
   * A question loaded without answers shows four blank rows, and none of what
   * is typed into them is sent when the edit is saved: those rows have no id.
   */
  lemma BlankRowsOfEditNotSent(question: Question, answers: seq<AnswerField>)
    requires question.answers == []
    requires |answers| == |EditForm(question).answers|
    requires forall k :: 0 <= k < |answers| ==> answers[k].id == EditForm(question).answers[k].id
    ensures AnswerUpdates(question.id, answers) == []
  {
    forall k | 0 <= k < |answers| ensures !Truthy(answers[k].id) {
      assert answers[k].id == BLANK_ANSWERS[k].id;
    }
    NoIdsNoUpdates(question.id, answers);
  }

  /** One more row: its update, if it has an id, follows the earlier rows' updates. */
  lemma AnswerUpdatesStep(questionId: int, answers: seq<AnswerField>, i: int)
    requires 0 <= i < |answers|
    ensures AnswerUpdates(questionId, answers[..i + 1]) == AnswerUpdates(questionId, answers[..i]) +
      if Truthy(answers[i].id)
      then [UpdateAnswer(questionId, answers[i].id.value, answers[i].answerText, answers[i].correct, i)]
      else []
  {
    var p := answers[..i + 1];
    assert p[..i] == answers[..i] && p[i] == answers[i];
  }

  /** The updates sent for the first n rows are among, and a prefix of, all the updates. */
  lemma SentPrefix(questionId: int, answers: seq<AnswerField>, n: int, sent: seq<Request>)
    requires 0 < n <= |answers| && sent == AnswerUpdates(questionId, answers[..n]) && sent != []
    ensures sent <= AnswerUpdates(questionId, answers)
    ensures sent[|sent| - 1] in AnswerUpdates(questionId, answers)
  {
    AnswerUpdatesPrefix(questionId, answers, n);
    assert sent[|sent| - 1] == AnswerUpdates(questionId, answers)[|sent| - 1];
  }

  /**
   * The edit's loop over the rows: each row with an id is sent as an update,
   * in row order; `refused` holds the requests the server fails, and the
   * first of them ends the loop.
   */
  method SendAnswerUpdates(questionId: int, answers: seq<AnswerField>, refused: set<Request>)
    returns (sent: seq<Request>, ok: bool)
    ensures ok ==> sent == AnswerUpdates(questionId, answers)
    ensures ok <==> forall r :: r in AnswerUpdates(questionId, answers) ==> r !in refused
    ensures !ok ==>
      sent != [] && sent <= AnswerUpdates(questionId, answers) && sent[|sent| - 1] in refused
      && forall k :: 0 <= k < |sent| - 1 ==> sent[k] !in refused
  {
    sent := [];
    var index := 0;
    while index < |answers|
      invariant 0 <= index <= |answers|
      invariant sent == AnswerUpdates(questionId, answers[..index])
      invariant forall r :: r in sent ==> r !in refused
    {
      var answer := answers[index];
      if Truthy(answer.id) {
        var request := UpdateAnswer(questionId, answer.id.value, answer.answerText, answer.correct, index);
        assert sent + [request] == AnswerUpdates(questionId, answers[..index + 1]) by {
          AnswerUpdatesStep(questionId, answers, index);
        }
        sent := sent + [request];
        if request in refused {
          SentPrefix(questionId, answers, index + 1, sent);
          return sent, false;
        }
      } else {
        assert sent == AnswerUpdates(questionId, answers[..index + 1]) by {
          AnswerUpdatesStep(questionId, answers, index);
        }
      }
      index := index + 1;
    }
    assert answers[..index] == answers;
    return sent, true;
  }

  /**
   * The edit branch of handleSubmit: the question update, then, if it is
   * accepted, the answer updates, stopping at the first refusal.
   */
  method SendEdit(questionId: int, form: FormState, refused: set<Request>)
    returns (sent: seq<Request>, ok: bool)
    ensures sent != [] && sent[0] == QuestionUpdate(questionId, form)
    ensures sent[1..] <= AnswerUpdates(questionId, form.answers)
    ensures ok <==> forall r :: r in sent ==> r !in refused
    ensures ok ==> sent[1..] == AnswerUpdates(questionId, form.answers)
  {
    var update := QuestionUpdate(questionId, form);
    sent := [update];
    if update in refused {
      return sent, false;
    }
    var answerRequests;
    answerRequests, ok := SendAnswerUpdates(questionId, form.answers, refused);
    sent := sent + answerRequests;
    assert sent[1..] == answerRequests;
    if !ok {
      assert sent[|sent| - 1] in refused;
    }
  }

  /**
   * What handleSubmit sends for a form, given the quiz from the address, the
   * question being edited if any, and the number of questions
   * listed: nothing when a check fails or there is no quiz; the creation of a
   * new question; or the edit of the question being edited. `saved` tells
   * whether something was sent and all of it was accepted.
   */
  predicate SubmitOutcome(
    check: SubmitCheck, sent: seq<Request>, saved: bool,
    form: FormState, quizId: Option<int>, editing: Option<Question>, count: int, refused: set<Request>)
  {
    && check == CheckSubmit(form)
    && (check != SubmitOk || quizId.None? ==> sent == [] && !saved)
    && (saved <==> sent != [] && forall r :: r in sent ==> r !in refused)
    && (check == SubmitOk && quizId.Some? && editing.None? ==>
          sent == [CreateRequest(quizId.value, form, count)])
    && (check == SubmitOk && quizId.Some? && editing.Some? ==>
          sent != [] && sent[0] == QuestionUpdate(editing.value.id, form)
          && sent[1..] <= AnswerUpdates(editing.value.id, form.answers)
          && (saved ==> sent[1..] == AnswerUpdates(editing.value.id, form.answers)))
  }

  method SubmitRequests(form: FormState, quizId: Option<int>, editing: Option<Question>, count: int, refused: set<Request>)
    returns (check: SubmitCheck, sent: seq<Request>, saved: bool)
    ensures SubmitOutcome(check, sent, saved, form, quizId, editing, count, refused)
  {
    check := CheckSubmit(form);
    sent := [];
    saved := false;
    if check != SubmitOk || quizId.None? {
      return;
    }
    if editing.Some? {
      sent, saved := SendEdit(editing.value.id, form, refused);
    } else {
      var create := CreateRequest(quizId.value, form, count);
      sent := [create];
      saved := create !in refused;
    }
  }

  // ---------------------------------------------------------------------------
  // A created question read back

  /** The answers the server stores from a creation request, with the ids it assigns. */
  function Stored(payloads: seq<AnswerPayload>, ids: seq<int>): (r: seq<Answer>)
    requires |ids| == |payloads|
    ensures |r| == |payloads|
  {
    seq(|payloads|, k requires 0 <= k < |payloads| =>
      Answer(ids[k], payloads[k].answerText, payloads[k].correct, payloads[k].displayOrder))
  }

  /** The stored answers of a created question are already in display order. */
  lemma StoredInOrder(answers: seq<AnswerField>, ids: seq<int>)
    requires |ids| == |answers|
    ensures SortBy(Stored(AnswerPayloads(answers), ids), DisplayOrderOf) == Stored(AnswerPayloads(answers), ids)
  {
    var stored := Stored(AnswerPayloads(answers), ids);
    assert forall k :: 0 <= k < |stored| ==> DisplayOrderOf(stored[k]) == k;
    SortSorted(stored, DisplayOrderOf);
  }

  /** The rows of a form with the ids the server gave its answers. */
  function WithIds(answers: seq<AnswerField>, ids: seq<int>): (r: seq<AnswerField>)
    requires |ids| == |answers|
    ensures |r| == |answers|
  {
    seq(|ids|, k requires 0 <= k < |ids| => answers[k].(id := Some(ids[k])))
  }

  /**
   * A question created from a form, once opened for editing, shows the same
   * rows in the same order, now carrying the ids the server gave them.
   */
  lemma CreatedQuestionReloads(quizId: int, form: FormState, count: int, questionId: int, ids: seq<int>)
    requires form.answers != [] && |ids| == |form.answers|
    ensures var request := CreateRequest(quizId, form, count);
      var question := Question(questionId, request.questionText, request.explanation, request.points, Stored(request.answers, ids));
      EditForm(question) == form.(answers := WithIds(form.answers, ids))
  {
    var request := CreateRequest(quizId, form, count);
    var stored := Stored(request.answers, ids);
    StoredInOrder(form.answers, ids);
    var rows := FieldsOf(stored);
    assert forall k :: 0 <= k < |rows| ==> rows[k] == WithIds(form.answers, ids)[k];
    assert rows == WithIds(form.answers, ids);
  }

  // ---------------------------------------------------------------------------
  // The page

  class QuizQuestionsPage {
    var questions: seq<Question>
    var formData: FormState
    var editingQuestion: Option<Question>
    var isDialogOpen: bool

    constructor()
      ensures questions == [] && formData == BLANK_FORM && editingQuestion.None? && !isDialogOpen
    {
      questions := [];
      formData := BLANK_FORM;
      editingQuestion := None;
      isDialogOpen := false;
    }

    /** handleOpenDialog: a blank form for a new question. */
    method OpenDialog()
      modifies this`formData, this`editingQuestion, this`isDialogOpen
      ensures formData == BLANK_FORM && editingQuestion.None? && isDialogOpen
    {
      editingQuestion := None;
      formData := BLANK_FORM;
      isDialogOpen := true;
    }

    /** handleEditQuestion: the form loaded from the question, which becomes the one edited. */
    method EditQuestion(question: Question)
      modifies this`formData, this`editingQuestion, this`isDialogOpen
      ensures formData == EditForm(question) && editingQuestion == Some(question) && isDialogOpen
    {
      editingQuestion := Some(question);
      formData := EditForm(question);
      isDialogOpen := true;
    }

    method ChangeAnswer(index: int, value: Text)
      requires 0 <= index < |formData.answers|
      modifies this`formData
      ensures formData == old(formData).(answers := AnswerChange(old(formData).answers, index, value))
    {
      formData := formData.(answers := AnswerChange(formData.answers, index, value));
    }

    method ChangeCorrectAnswer(index: int)
      modifies this`formData
      ensures formData == old(formData).(answers := CorrectAnswerChange(old(formData).answers, index))
    {
      formData := formData.(answers := CorrectAnswerChange(formData.answers, index));
    }

    method ChangePoints(value: Text)
      modifies this`formData
      ensures formData == old(formData).(points := PointsInput(value))
    {
      formData := formData.(points := PointsInput(value));
    }

    /**
     * handleSubmit: the requests of SubmitRequests for the current form; when
     * they are all accepted the dialog closes and nothing is edited any more,
     * otherwise both stay.
     */
    method Submit(quizId: Option<int>, refused: set<Request>)
      returns (check: SubmitCheck, sent: seq<Request>, saved: bool)
      modifies this`isDialogOpen, this`editingQuestion
      ensures SubmitOutcome(check, sent, saved, old(formData), quizId, old(editingQuestion), old(|questions|), refused)
      ensures saved ==> !isDialogOpen && editingQuestion.None?
      ensures !saved ==> isDialogOpen == old(isDialogOpen) && editingQuestion == old(editingQuestion)
    {
      check, sent, saved := SubmitRequests(formData, quizId, editingQuestion, |questions|, refused);
      if saved {
        isDialogOpen := false;
        editingQuestion := None;
      }
    }
  }
}

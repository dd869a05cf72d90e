/**
 * The moderators' question bank: the question dialog opened blank or loaded
 * from a question, saving, which sends the whole form with its answers
 * numbered by position as a creation or an update, and deleting a question
 * after a confirmation.
 */
module QuestionManagement {
  import opened Common
  import opened Types
  import opened QuestionForm

  datatype BankAnswer = BankAnswer(id: int, answerText: Text, correct: bool, displayOrder: int)

  datatype BankQuestion = BankQuestion(
    id: int,
    questionText: Text,
    explanation: Option<Text>,
    points: int,
    answers: seq<BankAnswer>)

  /**
   * handleEditQuestion's form: the question's text and points, its
   * explanation or nothing, and a row per answer with its text and mark, in
   * the order the answers come, without ids.
   */
  function EditForm(question: BankQuestion): (f: FormState)
    ensures f.questionText == question.questionText && f.points == question.points
    ensures f.explanation == question.explanation.GetOr("")
    ensures |f.answers| == |question.answers|
    ensures forall k :: 0 <= k < |f.answers| ==>
      f.answers[k] == AnswerField(None, question.answers[k].answerText, question.answers[k].correct)
  {
    FormState(
      question.questionText,
      question.explanation.GetOr(""),
      question.points,
      seq(|question.answers|, k requires 0 <= k < |question.answers| =>
        AnswerField(None, question.answers[k].answerText, question.answers[k].correct)))
  }

  /**
   * Unlike the quiz's question editor, a question without answers opens with
   * no rows, and such a form can never be saved: there is no row to mark.
   */
  lemma EditWithoutAnswersCannotSave(question: BankQuestion, i: int)
    requires question.answers == []
    ensures EditForm(question).answers == []
    ensures CorrectAnswerChange(EditForm(question).answers, i) == []
    ensures CheckSubmit(EditForm(question)) != SubmitOk
  {
  }

  // ---------------------------------------------------------------------------
  // Requests

  /** The question as both the creation and the update send it. */
  datatype QuestionPayload = QuestionPayload(
    questionText: Text,
    explanation: Option<Text>,
    points: int,
    answers: seq<AnswerPayload>)

  datatype Request = Create(payload: QuestionPayload) | Update(questionId: int, payload: QuestionPayload)

  /** The form as sent: the explanation only when not empty, the answers numbered by row. */
  function PayloadOf(form: FormState): QuestionPayload {
    QuestionPayload(form.questionText, OrAbsent(form.explanation), form.points, AnswerPayloads(form.answers))
  }

  /** The form a payload describes, rows without ids in display order. */
  function FormOfPayload(p: QuestionPayload): FormState {
    FormState(
      p.questionText,
      p.explanation.GetOr(""),
      p.points,
      seq(|p.answers|, k requires 0 <= k < |p.answers| => AnswerField(None, p.answers[k].answerText, p.answers[k].correct)))
  }

  /** The payload carries the whole form: a form whose rows have no ids is read back from it. */
  lemma PayloadReadsBack(form: FormState)
    requires forall k :: 0 <= k < |form.answers| ==> form.answers[k].id.None?
    ensures FormOfPayload(PayloadOf(form)) == form
  {
    var back := FormOfPayload(PayloadOf(form));
    assert forall k :: 0 <= k < |form.answers| ==> back.answers[k] == form.answers[k];
  }

  /**
   * Saving an edited question unchanged sends its answers in the order they
   * came, renumbered 0, 1, … whatever their display order was.
   */
  lemma UnchangedEditRenumbers(question: BankQuestion)
    ensures var sent := PayloadOf(EditForm(question)).answers;
      |sent| == |question.answers|
      && forall k :: 0 <= k < |sent| ==>
        sent[k] == AnswerPayload(question.answers[k].answerText, question.answers[k].correct, k)
  {
  }

  /** The request of a valid form: an update of the question being edited, or a creation. */
  function SaveRequest(form: FormState, editing: Option<BankQuestion>): (r: Request)
    ensures r.Update? <==> editing.Some?
    ensures r.Update? ==> r.questionId == editing.value.id
    ensures r.payload == PayloadOf(form)
  {
    if editing.Some? then Update(editing.value.id, PayloadOf(form)) else Create(PayloadOf(form))
  }

  // ---------------------------------------------------------------------------
  // The page

  class QuestionManagementPage {
    var questions: seq<BankQuestion>
    var formData: FormState
    var editingQuestion: Option<BankQuestion>
    var isDialogOpen: bool
    var deleteQuestionId: Option<int>

    constructor()
      ensures questions == [] && formData == BLANK_FORM && editingQuestion.None? && !isDialogOpen
      ensures deleteQuestionId.None?
    {
      questions := [];
      formData := BLANK_FORM;
      editingQuestion := None;
      isDialogOpen := false;
      deleteQuestionId := None;
    }

    /** loadData: the question bank from the server; a failure keeps the list. */
    method LoadData(response: Option<seq<BankQuestion>>)
      modifies this`questions
      ensures questions == if response.Some? then response.value else old(questions)
    {
      if response.Some? {
        questions := response.value;
      }
    }

    /** handleOpenDialog: a blank form for a new question, nothing being edited. */
    method OpenDialog()
      modifies this`formData, this`editingQuestion, this`isDialogOpen
      ensures formData == BLANK_FORM && editingQuestion.None? && isDialogOpen
    {
      editingQuestion := None;
      formData := BLANK_FORM;
      isDialogOpen := true;
    }

    /** handleEditQuestion: the form loaded from the question, which becomes the one edited. */
    method EditQuestion(question: BankQuestion)
      modifies this`formData, this`editingQuestion, this`isDialogOpen
      ensures formData == EditForm(question) && editingQuestion == Some(question) && isDialogOpen
    {
      editingQuestion := Some(question);
      formData := EditForm(question);
      isDialogOpen := true;
    }

    method ChangeAnswer(index: int, value: Text)
      requires 0 <= index < |formData.answers|
      modifies this`formData
      ensures formData == old(formData).(answers := AnswerChange(old(formData).answers, index, value))
    {
      formData := formData.(answers := AnswerChange(formData.answers, index, value));
    }

    method ChangeCorrectAnswer(index: int)
      modifies this`formData
      ensures formData == old(formData).(answers := CorrectAnswerChange(old(formData).answers, index))
    {
      formData := formData.(answers := CorrectAnswerChange(formData.answers, index));
    }

    method ChangePoints(value: Text)
      modifies this`formData
      ensures formData == old(formData).(points := PointsInput(value))
    {
      formData := formData.(points := PointsInput(value));
    }

    /**
     * handleSubmit: a request only when the checks pass; `accepted` stands
     * for the server's answer. On success the dialog closes, nothing is
     * edited any more and the list is reloaded from `reload`; otherwise all
     * three stay.
     */
    method Submit(accepted: bool, reload: Option<seq<BankQuestion>>)
      returns (check: SubmitCheck, request: Option<Request>, saved: bool)
      modifies this`isDialogOpen, this`editingQuestion, this`questions
      ensures check == CheckSubmit(old(formData))
      ensures request.Some? <==> check == SubmitOk
      ensures request.Some? ==> request.value == SaveRequest(old(formData), old(editingQuestion))
      ensures saved <==> request.Some? && accepted
      ensures saved ==>
        !isDialogOpen && editingQuestion.None?
        && questions == (if reload.Some? then reload.value else old(questions))
      ensures !saved ==>
        isDialogOpen == old(isDialogOpen) && editingQuestion == old(editingQuestion)
        && questions == old(questions)
    {
      var form := formData;
      check := CheckSubmit(form);
      request := None;
      saved := false;
      if check != SubmitOk {
        return;
      }
      request := Some(SaveRequest(form, editingQuestion));
      if accepted {
        saved := true;
        isDialogOpen := false;
        editingQuestion := None;
        LoadData(reload);
      }
    }

    /** The trash button: the question to delete, which opens the confirmation. */
    method AskDelete(id: int)
      modifies this`deleteQuestionId
      ensures deleteQuestionId == Some(id)
    {
      deleteQuestionId := Some(id);
    }

    /** The confirmation is open while a non-zero id is pending. */
    predicate DeleteDialogOpen()
      reads this
    {
      Truthy(deleteQuestionId)
    }

    /**
     * handleDelete: nothing without a pending non-zero id; otherwise that
     * question's deletion is sent, and when the server accepts it the pending
     * id is cleared and the list reloaded from `reload`.
     */
    method ConfirmDelete(accepted: bool, reload: Option<seq<BankQuestion>>) returns (deleted: Option<int>)
      modifies this`deleteQuestionId, this`questions
      ensures deleted.Some? <==> Truthy(old(deleteQuestionId))
      ensures deleted.Some? ==> deleted == old(deleteQuestionId)
      ensures deleted.Some? && accepted ==>
        deleteQuestionId.None? && !DeleteDialogOpen()
        && questions == (if reload.Some? then reload.value else old(questions))
      ensures deleted.None? || !accepted ==> deleteQuestionId == old(deleteQuestionId) && questions == old(questions)
    {
      deleted := None;
      if !Truthy(deleteQuestionId) {
        return;
      }
      deleted := deleteQuestionId;
      if accepted {
        deleteQuestionId := None;
        LoadData(reload);
      }
    }
  }
}

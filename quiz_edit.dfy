/**
 * The moderators' quiz editor: the nine edited settings and the check for
 * unsaved changes, the checks before saving, the cancel confirmation, and
 * the list of the quiz's questions, which can be added to, deleted from after
 * a confirmation, and reordered by moving one question up or down.
 */
module QuizEdit {
  import opened Common
  import opened Types

  /** A question as the editor lists it. */
  datatype QuestionItem = QuestionItem(id: int, questionText: Text)

  // ---------------------------------------------------------------------------
  // Settings form and change detection

  /**
   * The nine edited settings. The start and end times are the texts of the
   * date-time inputs, empty when not set.
   */
  datatype QuizForm = QuizForm(
    title: Text,
    description: Text,
    durationMinutes: int,
    passingScore: int,
    startTime: Text,
    endTime: Text,
    shuffleQuestions: bool,
    showResultsImmediately: bool,
    active: bool)

  /**
   * The input text of an optional time; `formatDate` stands for the date
   * library's "yyyy-MM-dd'T'HH:mm" formatting.
   */
  function TimeInput(t: Option<int>, formatDate: int -> Text): Text {
    if t.Some? then formatDate(t.value) else ""
  }

  /** The form as loadData fills it from the quiz. */
  function FormOf(quiz: Quiz, formatDate: int -> Text): QuizForm {
    QuizForm(
      quiz.title,
      quiz.description,
      quiz.durationMinutes,
      quiz.passingScore,
      TimeInput(quiz.startTime, formatDate),
      TimeInput(quiz.endTime, formatDate),
      quiz.shuffleQuestions,
      quiz.showResultsImmediately,
      quiz.active)
  }

  /** The unsaved-changes check: one of the nine fields differs from the loaded quiz. */
  predicate HasChanges(form: QuizForm, quiz: Quiz, formatDate: int -> Text) {
    form.title != quiz.title
    || form.description != quiz.description
    || form.durationMinutes != quiz.durationMinutes
    || form.passingScore != quiz.passingScore
    || form.startTime != TimeInput(quiz.startTime, formatDate)
    || form.endTime != TimeInput(quiz.endTime, formatDate)
    || form.shuffleQuestions != quiz.shuffleQuestions
    || form.showResultsImmediately != quiz.showResultsImmediately
    || form.active != quiz.active
  }

  /**
   * There are changes exactly when the form is not the one loaded from the
   * quiz; the topic is not among the compared fields.
   */
  lemma HasChangesIff(form: QuizForm, quiz: Quiz, formatDate: int -> Text)
    ensures HasChanges(form, quiz, formatDate) <==> form != FormOf(quiz, formatDate)
    ensures !HasChanges(FormOf(quiz, formatDate), quiz.(topicId := quiz.topicId + 1), formatDate)
  {
  }

  /** The save button is disabled while saving or without changes. */
  predicate SaveDisabled(saving: bool, hasChanges: bool) {
    saving || !hasChanges
  }

  datatype CancelAction = ConfirmDialog | LeavePage

  /** handleCancel: ask for confirmation when there are changes, else leave. */
  function CancelActionOf(hasChanges: bool): (a: CancelAction)
    ensures a == ConfirmDialog <==> hasChanges
  {
    if hasChanges then ConfirmDialog else LeavePage
  }

  // ---------------------------------------------------------------------------
  // Saving

  datatype SaveCheck = TitleRequired | DurationNotPositive | StartNotBeforeEnd | SaveOk

  /**
   * handleSave's checks in their order: a blank title, a duration that is not
   * positive, and, when both times are set, a start not before the end.
   * `parseDate` stands for `new Date(...)` on the input text.
   */
  function CheckSave(form: QuizForm, parseDate: Text -> int): (r: SaveCheck)
    ensures r == TitleRequired <==> IsBlank(form.title)
    ensures r == DurationNotPositive <==> !IsBlank(form.title) && form.durationMinutes <= 0
    ensures r == SaveOk <==>
      !IsBlank(form.title) && form.durationMinutes > 0
      && (form.startTime == [] || form.endTime == [] || parseDate(form.startTime) < parseDate(form.endTime))
  {
    if IsBlank(form.title) then TitleRequired
    else if form.durationMinutes <= 0 then DurationNotPositive
    else if form.startTime != [] && form.endTime != [] && parseDate(form.startTime) >= parseDate(form.endTime) then StartNotBeforeEnd
    else SaveOk
  }

  /** The update request: the nine settings, an empty time sent as absent. */
  datatype QuizUpdate = QuizUpdate(
    title: Text,
    description: Text,
    durationMinutes: int,
    passingScore: int,
    startTime: Option<Text>,
    endTime: Option<Text>,
    shuffleQuestions: bool,
    showResultsImmediately: bool,
    active: bool)

  function UpdatePayload(form: QuizForm): QuizUpdate {
    QuizUpdate(
      form.title, form.description, form.durationMinutes, form.passingScore,
      OrAbsent(form.startTime), OrAbsent(form.endTime),
      form.shuffleQuestions, form.showResultsImmediately, form.active)
  }

  /** The request carries the whole form: the form can be read back from it. */
  lemma UpdatePayloadKeepsForm(form: QuizForm)
    ensures var p := UpdatePayload(form);
      QuizForm(p.title, p.description, p.durationMinutes, p.passingScore,
        p.startTime.GetOr(""), p.endTime.GetOr(""),
        p.shuffleQuestions, p.showResultsImmediately, p.active) == form
  {
  }

  // ---------------------------------------------------------------------------
  // Choosing questions

  predicate IsSelected(q: QuestionItem, selected: seq<QuestionItem>) {
    exists i :: 0 <= i < |selected| && selected[i].id == q.id
  }

  /** A question the picker offers: not already chosen, and matching a non-empty query. */
  predicate Offered(q: QuestionItem, selected: seq<QuestionItem>, query: Text) {
    !IsSelected(q, selected) && (query == [] || Includes(Lower(q.questionText), Lower(query)))
  }

  /**
   * filterQuestions: the available questions not already chosen (by id),
   * then, for a non-empty query, those whose lower-cased text contains the
   * lower-cased query.
   */
  function FilterQuestions(available: seq<QuestionItem>, selected: seq<QuestionItem>, query: Text): (r: seq<QuestionItem>)
    ensures forall q :: q in r <==> q in available && Offered(q, selected, query)
    ensures forall q :: multiset(r)[q] == if Offered(q, selected, query) then multiset(available)[q] else 0
    ensures IsSubsequence(r, available)
  {
    var notChosen := Filter(available, q => !IsSelected(q, selected));
    if query == [] then
      FilterIsSubsequence(available, q => !IsSelected(q, selected));
      FilterCounts(available, q => !IsSelected(q, selected));
      notChosen
    else
      var lq := Lower(query);
      FilterTwice(available, q => !IsSelected(q, selected), (q: QuestionItem) => Includes(Lower(q.questionText), lq),
        q => Offered(q, selected, query));
      Filter(notChosen, (q: QuestionItem) => Includes(Lower(q.questionText), lq))
  }

  // ---------------------------------------------------------------------------
  // Reordering

  /** The list with the elements at i and j exchanged. */
  function Swap(s: seq<QuestionItem>, i: int, j: int): (r: seq<QuestionItem>)
    requires 0 <= i < |s| && 0 <= j < |s|
    ensures |r| == |s| && r[i] == s[j] && r[j] == s[i]
    ensures forall k :: 0 <= k < |s| && k != i && k != j ==> r[k] == s[k]
  {
    s[i := s[j]][j := s[i]]
  }

  /** Exchanging two elements keeps the same elements, each as often. */
  lemma SwapIsPermutation(s: seq<QuestionItem>, i: int, j: int)
    requires 0 <= i < j < |s|
    ensures multiset(Swap(s, i, j)) == multiset(s)
  {
    var t := s[i := s[j]];
    assert multiset(t) == multiset(s) - multiset{s[i]} + multiset{s[j]};
    assert t[j] == s[j];
    assert multiset(t[j := s[i]]) == multiset(t) - multiset{s[j]} + multiset{s[i]};
  }

  /** Moving the question at i up and then the one at i - 1 down gives the list back. */
  lemma MoveUpThenDownRestores(s: seq<QuestionItem>, i: int)
    requires 0 < i < |s|
    ensures Swap(Swap(s, i - 1, i), i - 1, i) == s
  {
  }

  class QuizEditPage {
    var selectedQuestions: seq<QuestionItem>
    var questionToDelete: Option<QuestionItem>
    var showDeleteQuestionDialog: bool

    constructor()
      ensures selectedQuestions == [] && questionToDelete.None? && !showDeleteQuestionDialog
    {
      selectedQuestions := [];
      questionToDelete := None;
      showDeleteQuestionDialog := false;
    }

    /** addQuestion: the question goes to the end of the list. */
    method AddQuestion(q: QuestionItem)
      modifies this`selectedQuestions
      ensures selectedQuestions == old(selectedQuestions) + [q]
    {
      selectedQuestions := selectedQuestions + [q];
    }

    /** removeQuestion: remembers the question and opens the confirmation. */
    method RemoveQuestion(q: QuestionItem)
      modifies this`questionToDelete, this`showDeleteQuestionDialog
      ensures questionToDelete == Some(q) && showDeleteQuestionDialog
    {
      questionToDelete := Some(q);
      showDeleteQuestionDialog := true;
    }

    /**
     * confirmDeleteQuestion: removes every question with the pending id,
     * keeping the others in order, forgets the pending question and closes
     * the dialog.
     */
    method ConfirmDeleteQuestion()
      modifies this`selectedQuestions, this`questionToDelete, this`showDeleteQuestionDialog
      ensures old(questionToDelete).None? ==> selectedQuestions == old(selectedQuestions)
      ensures old(questionToDelete).Some? ==>
        var gone := old(questionToDelete).value.id;
        (forall q :: q in selectedQuestions <==> q in old(selectedQuestions) && q.id != gone)
        && IsSubsequence(selectedQuestions, old(selectedQuestions))
      ensures questionToDelete.None? && !showDeleteQuestionDialog
    {
      if questionToDelete.Some? {
        var gone := questionToDelete.value.id;
        FilterIsSubsequence(selectedQuestions, (q: QuestionItem) => q.id != gone);
        selectedQuestions := Filter(selectedQuestions, (q: QuestionItem) => q.id != gone);
        questionToDelete := None;
      }
      showDeleteQuestionDialog := false;
    }

    /**
     * moveQuestionUp: nothing at the top; otherwise a copy of the list with
     * the question and the one above it exchanged.
     */
    method MoveQuestionUp(index: int)
      requires 0 <= index < |selectedQuestions|
      modifies this`selectedQuestions
      ensures index == 0 ==> selectedQuestions == old(selectedQuestions)
      ensures index > 0 ==> selectedQuestions == Swap(old(selectedQuestions), index - 1, index)
    {
      if index == 0 {
        return;
      }
      var s := selectedQuestions;
      var copy := new QuestionItem[|s|](k requires 0 <= k < |s| => s[k]);
      copy[index - 1], copy[index] := copy[index], copy[index - 1];
      selectedQuestions := copy[..];
    }

    /**
     * moveQuestionDown: nothing at the bottom; otherwise a copy of the list
     * with the question and the one below it exchanged.
     */
    method MoveQuestionDown(index: int)
      requires 0 <= index < |selectedQuestions|
      modifies this`selectedQuestions
      ensures index == |old(selectedQuestions)| - 1 ==> selectedQuestions == old(selectedQuestions)
      ensures index < |old(selectedQuestions)| - 1 ==> selectedQuestions == Swap(old(selectedQuestions), index, index + 1)
    {
      if index == |selectedQuestions| - 1 {
        return;
      }
      var s := selectedQuestions;
      var copy := new QuestionItem[|s|](k requires 0 <= k < |s| => s[k]);
      copy[index], copy[index + 1] := copy[index + 1], copy[index];
      selectedQuestions := copy[..];
    }
  }
}

/**
 * The question form shared by the two question editors of the moderators: the
 * question text, explanation and points, and a list of answer rows of which
 * one is marked correct; the edits of one row, the checks made before saving,
 * and the answers as sent to the server, numbered by their position.
 */
module QuestionForm {
  import opened Common

  /** One answer row; `id` is present only for an answer loaded for editing. */
  datatype AnswerField = AnswerField(id: Option<int>, answerText: Text, correct: bool)

  datatype FormState = FormState(
    questionText: Text,
    explanation: Text,
    points: int,
    answers: seq<AnswerField>)

  const BLANK_ANSWER: AnswerField := AnswerField(None, "", false)

  /** The four empty, incorrect rows a new question starts with. */
  const BLANK_ANSWERS: seq<AnswerField> := [BLANK_ANSWER, BLANK_ANSWER, BLANK_ANSWER, BLANK_ANSWER]

  /** The form of a new question: no text, no explanation, one point and four blank rows. */
  const BLANK_FORM: FormState := FormState("", "", 1, BLANK_ANSWERS)

  // ---------------------------------------------------------------------------
  // Editing the rows

  /** handleAnswerChange: row i gets the new text; its id and mark, and every other row, stay. */
  function AnswerChange(answers: seq<AnswerField>, i: int, v: Text): (r: seq<AnswerField>)
    requires 0 <= i < |answers|
    ensures |r| == |answers|
    ensures r[i].answerText == v && r[i].id == answers[i].id && r[i].correct == answers[i].correct
    ensures forall j :: 0 <= j < |r| && j != i ==> r[j] == answers[j]
  {
    answers[i := answers[i].(answerText := v)]
  }

  /** Typing the old text back into a row gives the rows back. */
  lemma AnswerChangeUndone(answers: seq<AnswerField>, i: int, v: Text)
    requires 0 <= i < |answers|
    ensures AnswerChange(AnswerChange(answers, i, v), i, answers[i].answerText) == answers
  {
    var r := AnswerChange(AnswerChange(answers, i, v), i, answers[i].answerText);
    assert forall j :: 0 <= j < |r| ==> r[j] == answers[j];
  }

  /**
   * handleCorrectAnswerChange: row j is marked correct exactly when j is i;
   * texts and ids stay. An index past the rows unmarks every row.
   */
  function CorrectAnswerChange(answers: seq<AnswerField>, i: int): (r: seq<AnswerField>)
    ensures |r| == |answers|
    ensures forall j :: 0 <= j < |r| ==> (r[j].correct <==> j == i)
    ensures forall j :: 0 <= j < |r| ==> r[j].answerText == answers[j].answerText && r[j].id == answers[j].id
  {
    seq(|answers|, j requires 0 <= j < |answers| => answers[j].(correct := j == i))
  }

  predicate IsMarked(a: AnswerField) {
    a.correct
  }

  /** When only row i is marked, exactly one row is marked if i is a row, else none. */
  lemma {:induction false} CountMarkedOnlyAt(answers: seq<AnswerField>, i: int)
    requires forall j :: 0 <= j < |answers| ==> (answers[j].correct <==> j == i)
    ensures Count(answers, IsMarked) == if 0 <= i < |answers| then 1 else 0
    decreases |answers|
  {
    if answers != [] {
      var rest := answers[1..];
      CountMarkedOnlyAt(rest, i - 1);
      assert Filter(answers, IsMarked) ==
        (if IsMarked(answers[0]) then [answers[0]] else []) + Filter(rest, IsMarked);
    }
  }

  /** After choosing row i, exactly one row is marked correct. */
  lemma ExactlyOneCorrect(answers: seq<AnswerField>, i: int)
    requires 0 <= i < |answers|
    ensures Count(CorrectAnswerChange(answers, i), IsMarked) == 1
  {
    CountMarkedOnlyAt(CorrectAnswerChange(answers, i), i);
  }

  /** Choosing the same row twice is choosing it once; editing a text keeps the marks. */
  lemma CorrectAnswerChangeIdempotent(answers: seq<AnswerField>, i: int, k: int, v: Text)
    requires 0 <= k < |answers|
    ensures CorrectAnswerChange(CorrectAnswerChange(answers, i), i) == CorrectAnswerChange(answers, i)
    ensures AnswerChange(CorrectAnswerChange(answers, i), k, v) == CorrectAnswerChange(AnswerChange(answers, k, v), i)
  {
    var once := CorrectAnswerChange(answers, i);
    assert forall j :: 0 <= j < |once| ==> CorrectAnswerChange(once, i)[j] == once[j];
    var a := AnswerChange(once, k, v);
    var b := CorrectAnswerChange(AnswerChange(answers, k, v), i);
    assert forall j :: 0 <= j < |a| ==> a[j] == b[j];
  }

  /** `parseInt(value) || 1`: the points input falls back to 1 on 0 or on a non-number. */
  function PointsInput(value: Text): (points: int)
    ensures points != 0
    ensures ParseInt(value) == NaN ==> points == 1
    ensures ParseInt(value).Num? && ParseInt(value).n != 0 ==> points == ParseInt(value).n
  {
    ParseIntOr(value, 1)
  }

  /** Typing a non-zero number gives that number; typing 0 gives 1. */
  lemma PointsInputReadsNumber(n: int)
    ensures PointsInput(IntToString(n)) == if n == 0 then 1 else n
  {
    ParseIntOfIntToString(n);
  }

  // ---------------------------------------------------------------------------
  // Checks before saving

  datatype SubmitCheck = QuestionRequired | AnswerTextRequired | CorrectAnswerRequired | SubmitOk

  /** `answers.some(ans => !ans.answerText.trim())` */
  predicate AnyBlankAnswer(answers: seq<AnswerField>) {
    exists j :: 0 <= j < |answers| && IsBlank(answers[j].answerText)
  }

  /** `answers.some(ans => ans.correct)` */
  predicate AnyCorrect(answers: seq<AnswerField>) {
    exists j :: 0 <= j < |answers| && answers[j].correct
  }

  /**
   * handleSubmit's checks in their order: a blank question, then a blank
   * answer, then no answer marked correct.
   */
  function CheckSubmit(form: FormState): (r: SubmitCheck)
    ensures r == QuestionRequired <==> IsBlank(form.questionText)
    ensures r == AnswerTextRequired <==> !IsBlank(form.questionText) && AnyBlankAnswer(form.answers)
    ensures r == CorrectAnswerRequired <==>
      !IsBlank(form.questionText) && !AnyBlankAnswer(form.answers) && !AnyCorrect(form.answers)
    ensures r == SubmitOk <==>
      !IsBlank(form.questionText) && !AnyBlankAnswer(form.answers) && AnyCorrect(form.answers)
  {
    if IsBlank(form.questionText) then QuestionRequired
    else if AnyBlankAnswer(form.answers) then AnswerTextRequired
    else if !AnyCorrect(form.answers) then CorrectAnswerRequired
    else SubmitOk
  }

  /** A new form is refused for its missing question, and once that is typed, for its blank rows. */
  lemma BlankFormRefused(text: Text)
    requires !IsBlank(text)
    ensures CheckSubmit(BLANK_FORM) == QuestionRequired
    ensures CheckSubmit(BLANK_FORM.(questionText := text)) == AnswerTextRequired
  {
    assert TrimStart("") == [];
    assert IsBlank(BLANK_ANSWERS[0].answerText);
  }

  /** A form with its question and every row filled in is accepted once a row is chosen as correct. */
  lemma ChoosingCorrectAnswerCompletes(form: FormState, i: int)
    requires !IsBlank(form.questionText) && !AnyBlankAnswer(form.answers)
    requires 0 <= i < |form.answers|
    ensures CheckSubmit(form.(answers := CorrectAnswerChange(form.answers, i))) == SubmitOk
  {
    var chosen := CorrectAnswerChange(form.answers, i);
    assert chosen[i].correct;
    assert !AnyBlankAnswer(chosen) by {
      forall j | 0 <= j < |chosen| ensures !IsBlank(chosen[j].answerText) {
        assert chosen[j].answerText == form.answers[j].answerText;
      }
    }
  }

  // ---------------------------------------------------------------------------
  // What is sent

  /** An answer as sent to the server, numbered by its row. */
  datatype AnswerPayload = AnswerPayload(answerText: Text, correct: bool, displayOrder: int)

  /** `answers.map((answer, index) => ({answerText, correct, displayOrder: index}))` */
  function AnswerPayloads(answers: seq<AnswerField>): (r: seq<AnswerPayload>)
    ensures |r| == |answers|
    ensures forall k :: 0 <= k < |r| ==> r[k].displayOrder == k
    ensures forall k :: 0 <= k < |r| ==>
      r[k].answerText == answers[k].answerText && r[k].correct == answers[k].correct
  {
    seq(|answers|, k requires 0 <= k < |answers| => AnswerPayload(answers[k].answerText, answers[k].correct, k))
  }

  /** The rows' texts and marks, in order, as the server receives them. */
  function Contents(answers: seq<AnswerField>): (r: seq<(Text, bool)>)
    ensures |r| == |answers|
  {
    seq(|answers|, k requires 0 <= k < |answers| => (answers[k].answerText, answers[k].correct))
  }

  /**
   * The payload keeps each row's text and mark and numbers the rows 0, 1, …
   * in order, so distinct rows get distinct numbers.
   */
  lemma AnswerPayloadsReadBack(answers: seq<AnswerField>)
    ensures var p := AnswerPayloads(answers);
      seq(|p|, k requires 0 <= k < |p| => (p[k].answerText, p[k].correct)) == Contents(answers)
      && forall j, k :: 0 <= j < k < |p| ==> p[j].displayOrder < p[k].displayOrder
  {
  }
}

/**
 * The administrators' view of one user's attempt: the correct and incorrect
 * counts, the time taken, and the question-by-question breakdown in which each
 * answer option is coloured and badged by whether it is correct and whether
 * the user chose it.
 */
module UserResultDetail {
  import opened Common

  datatype AnswerOption = AnswerOption(id: int, answerText: Text, correct: bool)

  datatype DetailQuestion = DetailQuestion(
    questionText: Text,
    explanation: Option<Text>,
    points: int,
    answers: seq<AnswerOption>)

  /** A graded answer of the attempt, with the question it answers when the server sends it. */
  datatype DetailAnswer = DetailAnswer(
    id: int,
    question: Option<DetailQuestion>,
    selectedAnswerId: Option<int>,
    correct: bool,
    pointsEarned: int)

  /** `attempt.userAnswers || []` */
  function UserAnswersOf(userAnswers: Option<seq<DetailAnswer>>): (r: seq<DetailAnswer>)
    ensures userAnswers.None? ==> r == []
    ensures userAnswers.Some? ==> r == userAnswers.value
  {
    userAnswers.GetOr([])
  }

  predicate IsCorrect(ua: DetailAnswer) {
    ua.correct
  }

  predicate IsIncorrect(ua: DetailAnswer) {
    !ua.correct
  }

  /** The "Correct Answers" and "Incorrect Answers" cards: the marked answers, and the rest. */
  function AnswerCounts(userAnswers: seq<DetailAnswer>): (r: (int, int))
    ensures 0 <= r.0 <= |userAnswers| && r.1 >= 0
    ensures r.0 + r.1 == |userAnswers|
  {
    var correct := Count(userAnswers, IsCorrect);
    (correct, |userAnswers| - correct)
  }

  /** The incorrect count is the number of answers not marked correct. */
  lemma IncorrectCountsWrongAnswers(userAnswers: seq<DetailAnswer>)
    ensures AnswerCounts(userAnswers).1 == Count(userAnswers, IsIncorrect)
  {
    CountSplit(userAnswers, IsCorrect, IsIncorrect);
  }

  /**
   * The Q-numbers of the breakdown: an entry without a question renders
   * nothing, and the others keep their position in the list, so the numbers
   * skip the missing entries.
   */
  function QuestionLabels(userAnswers: seq<DetailAnswer>, from: nat): (r: seq<int>)
    requires from <= |userAnswers|
    ensures forall k :: k in r <==> from < k <= |userAnswers| && userAnswers[k - 1].question.Some?
    ensures forall i, j :: 0 <= i < j < |r| ==> r[i] < r[j]
    decreases |userAnswers| - from
  {
    if from == |userAnswers| then []
    else
      var rest := QuestionLabels(userAnswers, from + 1);
      assert forall k :: k in rest ==> k > from + 1;
      assert forall i :: 0 <= i < |rest| ==> rest[i] in rest;
      if userAnswers[from].question.Some? then [from + 1] + rest else rest
  }

  /** An entry is numbered by its position only when it has a question. */
  lemma EntryShownIffQuestion(userAnswers: seq<DetailAnswer>, i: int)
    requires 0 <= i < |userAnswers|
    ensures i + 1 in QuestionLabels(userAnswers, 0) <==> userAnswers[i].question.Some?
  {
  }

  datatype Highlight = GreenOption | RedOption | Neutral

  /** A correct option is green; otherwise the option the user chose is red; otherwise neutral. */
  function OptionHighlight(option: AnswerOption, selected: Option<int>): Highlight {
    if option.correct then GreenOption
    else if selected == Some(option.id) then RedOption
    else Neutral
  }

  /** The colours by case: correctness wins over the user's choice. */
  lemma OptionHighlightCases(option: AnswerOption, selected: Option<int>)
    ensures OptionHighlight(option, selected) == GreenOption <==> option.correct
    ensures OptionHighlight(option, selected) == RedOption <==> !option.correct && selected == Some(option.id)
    ensures OptionHighlight(option, selected) == Neutral <==> !option.correct && selected != Some(option.id)
  {
  }

  const CORRECT_BADGE: Text := "Correct Answer"
  const USER_WRONG_BADGE: Text := "User's Answer"
  const USER_RIGHT_BADGE: Text := "User's Answer \U{2713}"

  /** The badges shown on an option, in the order they appear. */
  function OptionBadges(option: AnswerOption, selected: Option<int>): seq<Text> {
    var isSelected := selected == Some(option.id);
    (if option.correct then [CORRECT_BADGE] else [])
    + (if isSelected && !option.correct then [USER_WRONG_BADGE] else [])
    + (if isSelected && option.correct then [USER_RIGHT_BADGE] else [])
  }

  /**
   * The option the user chose carries exactly one of the two user badges, the
   * one matching its correctness; an option not chosen carries neither; and
   * "Correct Answer" marks exactly the correct options.
   */
  lemma UserBadgeExactlyOne(option: AnswerOption, selected: Option<int>)
    ensures var b := OptionBadges(option, selected);
      (selected == Some(option.id) ==>
        (USER_WRONG_BADGE in b <==> !option.correct) && (USER_RIGHT_BADGE in b <==> option.correct))
      && (selected != Some(option.id) ==> USER_WRONG_BADGE !in b && USER_RIGHT_BADGE !in b)
      && (CORRECT_BADGE in b <==> option.correct)
  {
    var b := OptionBadges(option, selected);
    assert CORRECT_BADGE != USER_WRONG_BADGE && CORRECT_BADGE != USER_RIGHT_BADGE && USER_WRONG_BADGE != USER_RIGHT_BADGE by {
      assert CORRECT_BADGE[0] != USER_WRONG_BADGE[0];
      assert CORRECT_BADGE[0] != USER_RIGHT_BADGE[0];
      assert |USER_WRONG_BADGE| != |USER_RIGHT_BADGE|;
    }
  }
}

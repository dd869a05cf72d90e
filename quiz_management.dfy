/**
 * The moderators' quiz list: the new-quiz dialog with its defaults and its
 * required fields, the search, topic and status filters over the loaded
 * quizzes, the activate/deactivate toggle and the delete confirmation.
 */
module QuizManagement {
  import opened Common
  import opened Types

  /** The new-quiz form (QuizCreateDto); the times are the input texts. */
  datatype QuizCreateForm = QuizCreateForm(
    title: Text,
    description: Text,
    topicId: int,
    durationMinutes: int,
    startTime: Text,
    endTime: Text,
    passingScore: int,
    shuffleQuestions: bool,
    showResultsImmediately: bool,
    active: bool)

  /** The form the page starts with, before the dialog is first opened. */
  const INITIAL_FORM := QuizCreateForm("", "", 0, 30, "", "", 70, false, true, true)

  /**
   * handleOpenDialog's form: 30 minutes, pass mark 70, no shuffling, results
   * shown, active, no topic. `tomorrow` and `nextWeek` stand for the clock's
   * time one day and seven days ahead, written as the inputs' text.
   */
  function DialogDefaults(tomorrow: Text, nextWeek: Text): (f: QuizCreateForm)
    ensures f.title == [] && f.description == [] && f.topicId == 0
    ensures f.durationMinutes == 30 && f.passingScore == 70
    ensures !f.shuffleQuestions && f.showResultsImmediately && f.active
    ensures f.startTime == tomorrow && f.endTime == nextWeek
    ensures f == INITIAL_FORM.(startTime := tomorrow, endTime := nextWeek)
  {
    QuizCreateForm("", "", 0, 30, tomorrow, nextWeek, 70, false, true, true)
  }

  /** handleSubmit's guard: a title, a description and a topic are required. */
  predicate MayCreate(form: QuizCreateForm) {
    form.title != [] && form.description != [] && form.topicId != 0
  }

  /** The opened dialog cannot be sent as it is: the topic still has to be chosen. */
  lemma DefaultsNeedTopic(tomorrow: Text, nextWeek: Text, title: Text, description: Text, topicId: int)
    ensures !MayCreate(DialogDefaults(tomorrow, nextWeek))
    ensures MayCreate(DialogDefaults(tomorrow, nextWeek).(title := title, description := description, topicId := topicId))
      <==> title != [] && description != [] && topicId != 0
  {
  }

  /** The page the moderator is sent to after a quiz is created. */
  function QuestionsPath(quizId: int): (p: Text)
    ensures IsPrefix("/moderator/quiz/", p)
  {
    "/moderator/quiz/" + IntToString(quizId) + "/questions"
  }

  /** Different quizzes have different questions pages. */
  lemma QuestionsPathInjective(a: int, b: int)
    requires QuestionsPath(a) == QuestionsPath(b)
    ensures a == b
  {
    var prefix: Text := "/moderator/quiz/";
    var ra := IntToString(a) + "/questions";
    var rb := IntToString(b) + "/questions";
    assert QuestionsPath(a) == prefix + ra && QuestionsPath(b) == prefix + rb;
    assert ra == QuestionsPath(a)[|prefix|..] == QuestionsPath(b)[|prefix|..] == rb;
    ParseIntReadsNumber(a, "/questions");
    ParseIntReadsNumber(b, "/questions");
  }

  // ---------------------------------------------------------------------------
  // Filters

  /** The lower-cased title or description contains the query, or the topic title does. */
  predicate QuizMatches(q: Quiz, lowerQuery: Text) {
    Includes(Lower(q.title), lowerQuery)
    || Includes(Lower(q.description), lowerQuery)
    || (q.topicTitle != [] && Includes(Lower(q.topicTitle), lowerQuery))
  }

  /**
   * The search step: it applies only when the trimmed query is not empty,
   * and then matches the whole lower-cased query, spaces included.
   */
  function SearchStep(quizzes: seq<Quiz>, query: Text): (r: seq<Quiz>)
    ensures IsBlank(query) ==> r == quizzes
    ensures !IsBlank(query) ==> forall q :: q in r <==> q in quizzes && QuizMatches(q, Lower(query))
    ensures !IsBlank(query) ==> forall q :: multiset(r)[q] == if QuizMatches(q, Lower(query)) then multiset(quizzes)[q] else 0
    ensures IsSubsequence(r, quizzes)
  {
    if IsBlank(query) then
      SubsequenceRefl(quizzes);
      quizzes
    else
      var lq := Lower(query);
      FilterIsSubsequence(quizzes, (q: Quiz) => QuizMatches(q, lq));
      FilterCounts(quizzes, (q: Quiz) => QuizMatches(q, lq));
      Filter(quizzes, (q: Quiz) => QuizMatches(q, lq))
  }

  /** The topic step: the quizzes whose topic id, written out, is the chosen value. */
  function TopicStep(quizzes: seq<Quiz>, filterTopic: Text): (r: seq<Quiz>)
    ensures filterTopic == "all" ==> r == quizzes
    ensures filterTopic != "all" ==> forall q :: q in r <==> q in quizzes && IntToString(q.topicId) == filterTopic
    ensures filterTopic != "all" ==>
      forall q :: multiset(r)[q] == if IntToString(q.topicId) == filterTopic then multiset(quizzes)[q] else 0
    ensures IsSubsequence(r, quizzes)
  {
    if filterTopic == "all" then
      SubsequenceRefl(quizzes);
      quizzes
    else
      FilterIsSubsequence(quizzes, (q: Quiz) => IntToString(q.topicId) == filterTopic);
      FilterCounts(quizzes, (q: Quiz) => IntToString(q.topicId) == filterTopic);
      Filter(quizzes, (q: Quiz) => IntToString(q.topicId) == filterTopic)
  }

  /** The status step: "active" and "inactive" filter; any other value keeps all. */
  function StatusStep(quizzes: seq<Quiz>, filterStatus: Text): (r: seq<Quiz>)
    ensures filterStatus == "active" ==> forall q :: q in r <==> q in quizzes && q.active
    ensures filterStatus == "inactive" ==> forall q :: q in r <==> q in quizzes && !q.active
    ensures filterStatus != "active" && filterStatus != "inactive" ==> r == quizzes
    ensures filterStatus == "active" ==> forall q :: multiset(r)[q] == if q.active then multiset(quizzes)[q] else 0
    ensures filterStatus == "inactive" ==> forall q :: multiset(r)[q] == if !q.active then multiset(quizzes)[q] else 0
    ensures IsSubsequence(r, quizzes)
  {
    if filterStatus == "active" then
      FilterIsSubsequence(quizzes, (q: Quiz) => q.active);
      FilterCounts(quizzes, (q: Quiz) => q.active);
      Filter(quizzes, (q: Quiz) => q.active)
    else if filterStatus == "inactive" then
      FilterIsSubsequence(quizzes, (q: Quiz) => !q.active);
      FilterCounts(quizzes, (q: Quiz) => !q.active);
      Filter(quizzes, (q: Quiz) => !q.active)
    else
      SubsequenceRefl(quizzes);
      quizzes
  }

  /** What each of the three steps lets through. */
  predicate Kept(q: Quiz, query: Text, filterTopic: Text, filterStatus: Text) {
    (IsBlank(query) || QuizMatches(q, Lower(query)))
    && (filterTopic == "all" || IntToString(q.topicId) == filterTopic)
    && (filterStatus == "active" ==> q.active)
    && (filterStatus == "inactive" ==> !q.active)
  }

  /** filterQuizzes: search, then topic, then status, each keeping the order. */
  function FilterQuizzes(quizzes: seq<Quiz>, query: Text, filterTopic: Text, filterStatus: Text): (r: seq<Quiz>)
    ensures IsSubsequence(r, quizzes)
    ensures forall q :: multiset(r)[q] == if Kept(q, query, filterTopic, filterStatus) then multiset(quizzes)[q] else 0
    ensures forall q :: q in r <==> q in quizzes && Kept(q, query, filterTopic, filterStatus)
  {
    var s1 := SearchStep(quizzes, query);
    var s2 := TopicStep(s1, filterTopic);
    var s3 := StatusStep(s2, filterStatus);
    SubsequenceTrans(s2, s1, quizzes);
    SubsequenceTrans(s3, s2, quizzes);
    assert forall q :: multiset(s3)[q] == if Kept(q, query, filterTopic, filterStatus) then multiset(quizzes)[q] else 0 by {
      forall q
        ensures multiset(s3)[q] == if Kept(q, query, filterTopic, filterStatus) then multiset(quizzes)[q] else 0
      {
        assert multiset(s1)[q] == if IsBlank(query) || QuizMatches(q, Lower(query)) then multiset(quizzes)[q] else 0;
        assert multiset(s2)[q] == if filterTopic == "all" || IntToString(q.topicId) == filterTopic then multiset(s1)[q] else 0;
      }
    }
    assert forall q :: q in s3 <==> q in quizzes && Kept(q, query, filterTopic, filterStatus) by {
      forall q
        ensures q in s3 <==> q in quizzes && Kept(q, query, filterTopic, filterStatus)
      {
        assert q in s3 <==> q in multiset(s3);
        assert q in quizzes <==> q in multiset(quizzes);
      }
    }
    s3
  }

  /**
   * Choosing a topic from the list (its id written out) keeps exactly the
   * quizzes of that topic, among those the other filters keep.
   */
  lemma TopicFilterKeepsTopic(quizzes: seq<Quiz>, query: Text, topicId: int, filterStatus: Text, q: Quiz)
    ensures q in FilterQuizzes(quizzes, query, IntToString(topicId), filterStatus) <==>
      q in FilterQuizzes(quizzes, query, "all", filterStatus) && q.topicId == topicId
  {
    var t := IntToString(topicId);
    var s1 := SearchStep(quizzes, query);
    var s2 := TopicStep(s1, t);
    assert q in s2 <==> q in s1 && q.topicId == topicId by {
      assert t != "all" by {
        assert t[0] != "all"[0];
      }
      if IntToString(q.topicId) == t {
        IntToStringInjective(q.topicId, topicId);
      }
    }
    StatusStepKeeps(s2, s1, filterStatus, q, q.topicId == topicId);
  }

  /**
   * If q is in a exactly when it is in b and c holds, the status step keeps
   * it from a exactly when it keeps it from b and c holds.
   */
  lemma StatusStepKeeps(a: seq<Quiz>, b: seq<Quiz>, filterStatus: Text, q: Quiz, c: bool)
    requires q in a <==> q in b && c
    ensures q in StatusStep(a, filterStatus) <==> q in StatusStep(b, filterStatus) && c
  {
  }

  /** The summary bar shows while any filter differs from its default. */
  predicate ShowsFilterSummary(query: Text, filterTopic: Text, filterStatus: Text) {
    query != [] || filterTopic != "all" || filterStatus != "all"
  }

  /** Without the summary bar every quiz is listed. */
  lemma NoSummaryListsAll(quizzes: seq<Quiz>, query: Text, filterTopic: Text, filterStatus: Text)
    requires !ShowsFilterSummary(query, filterTopic, filterStatus)
    ensures FilterQuizzes(quizzes, query, filterTopic, filterStatus) == quizzes
  {
    assert Trim(query) == [];
  }

  /**
   * A query of spaces shows the summary bar but filters nothing, since the
   * search is skipped for a blank query.
   */
  lemma BlankQueryShowsSummaryOnly(quizzes: seq<Quiz>)
    ensures ShowsFilterSummary(" ", "all", "all")
    ensures FilterQuizzes(quizzes, " ", "all", "all") == quizzes
  {
    assert TrimStart(" ") == [];
  }

  /** The activation request the toggle sends. */
  datatype ToggleRequest = Activate(id: int) | Deactivate(id: int)

  /** handleToggleActive: an active quiz is deactivated, an inactive one activated. */
  function ToggleRequestOf(quizId: int, currentlyActive: bool): (r: ToggleRequest)
    ensures r.id == quizId
    ensures r.Deactivate? <==> currentlyActive
  {
    if currentlyActive then Deactivate(quizId) else Activate(quizId)
  }

  // ---------------------------------------------------------------------------
  // The page

  class QuizManagementPage {
    var quizzes: seq<Quiz>
    var isDialogOpen: bool
    var formData: QuizCreateForm
    var deleteQuizId: Option<int>
    var searchQuery: Text
    var filterTopic: Text
    var filterStatus: Text

    constructor()
      ensures quizzes == [] && !isDialogOpen && formData == INITIAL_FORM && deleteQuizId.None?
      ensures searchQuery == [] && filterTopic == "all" && filterStatus == "all"
    {
      quizzes := [];
      isDialogOpen := false;
      formData := INITIAL_FORM;
      deleteQuizId := None;
      searchQuery := [];
      filterTopic := "all";
      filterStatus := "all";
    }

    /** The quizzes the list shows. */
    function Shown(): seq<Quiz>
      reads this
    {
      FilterQuizzes(quizzes, searchQuery, filterTopic, filterStatus)
    }

    /** loadData: the server's list, or the old list when loading fails. */
    method LoadData(response: Option<seq<Quiz>>)
      modifies this`quizzes
      ensures quizzes == if response.Some? then response.value else old(quizzes)
    {
      if response.Some? {
        quizzes := response.value;
      }
    }

    method OpenDialog(tomorrow: Text, nextWeek: Text)
      modifies this`formData, this`isDialogOpen
      ensures formData == DialogDefaults(tomorrow, nextWeek) && isDialogOpen
    {
      formData := DialogDefaults(tomorrow, nextWeek);
      isDialogOpen := true;
    }

    /**
     * handleSubmit: with a field missing, nothing is sent. Otherwise the form
     * is sent; `created` is the id the server gives the new quiz, or None when
     * it refuses. After a creation the dialog closes, the list is reloaded
     * from `reload`, and the moderator goes on to the new quiz's questions.
     */
    method Submit(created: Option<int>, reload: Option<seq<Quiz>>) returns (sent: Option<QuizCreateForm>, navigateTo: Option<Text>)
      modifies this`isDialogOpen, this`quizzes
      ensures sent.Some? <==> MayCreate(old(formData))
      ensures sent.Some? ==> sent.value == old(formData)
      ensures navigateTo.Some? <==> sent.Some? && created.Some?
      ensures navigateTo.Some? ==> navigateTo.value == QuestionsPath(created.value)
      ensures navigateTo.Some? ==> !isDialogOpen && quizzes == (if reload.Some? then reload.value else old(quizzes))
      ensures navigateTo.None? ==> isDialogOpen == old(isDialogOpen) && quizzes == old(quizzes)
    {
      sent, navigateTo := None, None;
      if !MayCreate(formData) {
        return;
      }
      sent := Some(formData);
      if created.Some? {
        isDialogOpen := false;
        LoadData(reload);
        navigateTo := Some(QuestionsPath(created.value));
      }
    }

    method AskDelete(quizId: int)
      modifies this`deleteQuizId
      ensures deleteQuizId == Some(quizId)
    {
      deleteQuizId := Some(quizId);
    }

    /**
     * handleDelete: nothing without a pending non-zero id; otherwise the
     * deletion is sent and, when `accepted`, the pending id is cleared and the
     * list reloaded.
     */
    method Delete(accepted: bool, reload: Option<seq<Quiz>>) returns (deleted: Option<int>)
      modifies this`deleteQuizId, this`quizzes
      ensures deleted.Some? <==> Truthy(old(deleteQuizId))
      ensures deleted.Some? ==> deleted == old(deleteQuizId)
      ensures deleted.Some? && accepted ==>
        deleteQuizId.None? && quizzes == (if reload.Some? then reload.value else old(quizzes))
      ensures deleted.None? || !accepted ==> deleteQuizId == old(deleteQuizId) && quizzes == old(quizzes)
    {
      deleted := None;
      if !Truthy(deleteQuizId) {
        return;
      }
      deleted := deleteQuizId;
      if accepted {
        deleteQuizId := None;
        LoadData(reload);
      }
    }

    /** handleToggleActive: the matching request, then a reload when it succeeds. */
    method ToggleActive(quizId: int, currentlyActive: bool, accepted: bool, reload: Option<seq<Quiz>>)
      returns (request: ToggleRequest)
      modifies this`quizzes
      ensures request == ToggleRequestOf(quizId, currentlyActive)
      ensures quizzes == (if accepted && reload.Some? then reload.value else old(quizzes))
    {
      request := ToggleRequestOf(quizId, currentlyActive);
      if accepted {
        LoadData(reload);
      }
    }

    /** The "Clear filters" button: every filter back to its default. */
    method ClearFilters()
      modifies this`searchQuery, this`filterTopic, this`filterStatus
      ensures !ShowsFilterSummary(searchQuery, filterTopic, filterStatus)
      ensures Shown() == quizzes
    {
      searchQuery, filterTopic, filterStatus := [], "all", "all";
      NoSummaryListsAll(quizzes, searchQuery, filterTopic, filterStatus);
    }
  }
}

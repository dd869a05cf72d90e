/**
 * The learners' quiz list: the search over title, description and topic, the
 * tabs that keep the quizzes of one availability status, the status labels,
 * and the "My Results" tab of the learner's completed attempts.
 */
module Quizzes {
  import opened Common
  import opened Types
  import opened Availability
  import opened AttemptStats

  /** The label of the status badge on a quiz card. */
  function StatusLabel(st: QuizStatus): Text {
    match st
    case Inactive => "Inactive"
    case Upcoming => "Upcoming"
    case Expired => "Expired"
    case Available => "Active Now"
  }

  /** Different statuses carry different labels, so the badge names the status. */
  lemma StatusLabelNamesStatus(s1: QuizStatus, s2: QuizStatus)
    ensures StatusLabel(s1) == StatusLabel(s2) <==> s1 == s2
  {
    if s1 != s2 {
      assert StatusLabel(s1)[0] != StatusLabel(s2)[0];
    }
  }

  /**
   * The lower-cased title contains the query, or the description or the topic
   * title is present and its lower-cased text contains it.
   */
  predicate QuizMatchesQuery(q: Quiz, lowerQuery: Text) {
    Includes(Lower(q.title), lowerQuery)
    || (q.description != [] && Includes(Lower(q.description), lowerQuery))
    || (q.topicTitle != [] && Includes(Lower(q.topicTitle), lowerQuery))
  }

  /** The search step: an empty query keeps the list. */
  function SearchQuizzes(quizzes: seq<Quiz>, query: Text): (r: seq<Quiz>)
    ensures query == [] ==> r == quizzes
    ensures forall q :: q in r <==> q in quizzes && (query == [] || QuizMatchesQuery(q, Lower(query)))
    ensures query != [] ==> forall q :: multiset(r)[q] == if QuizMatchesQuery(q, Lower(query)) then multiset(quizzes)[q] else 0
    ensures IsSubsequence(r, quizzes)
  {
    if query == [] then
      SubsequenceRefl(quizzes);
      quizzes
    else
      var lq := Lower(query);
      FilterIsSubsequence(quizzes, q => QuizMatchesQuery(q, lq));
      FilterCounts(quizzes, q => QuizMatchesQuery(q, lq));
      Filter(quizzes, q => QuizMatchesQuery(q, lq))
  }

  /** The status step: keeps the quizzes whose status at `now` is `status`. */
  function WithStatus(quizzes: seq<Quiz>, status: QuizStatus, now: int): (r: seq<Quiz>)
    ensures forall q :: q in r <==> q in quizzes && StatusOf(q, now) == status
    ensures forall q :: multiset(r)[q] == if StatusOf(q, now) == status then multiset(quizzes)[q] else 0
    ensures IsSubsequence(r, quizzes)
  {
    FilterIsSubsequence(quizzes, q => StatusOf(q, now) == status);
    FilterCounts(quizzes, q => StatusOf(q, now) == status);
    Filter(quizzes, q => StatusOf(q, now) == status)
  }

  /**
   * filterQuizzes: the search, then, when a status is asked for, the status
   * filter; the quizzes kept stay in their order.
   */
  function FilterQuizzes(quizzes: seq<Quiz>, query: Text, status: Option<QuizStatus>, now: int): (r: seq<Quiz>)
    ensures query == [] && status.None? ==> r == quizzes
    ensures forall q :: q in r <==>
      q in quizzes
      && (query == [] || QuizMatchesQuery(q, Lower(query)))
      && (status.None? || StatusOf(q, now) == status.value)
    ensures forall q :: (multiset(r)[q] ==
      if (query == [] || QuizMatchesQuery(q, Lower(query))) && (status.None? || StatusOf(q, now) == status.value)
      then multiset(quizzes)[q] else 0)
    ensures IsSubsequence(r, quizzes)
  {
    var searched := SearchQuizzes(quizzes, query);
    if status.None? then searched
    else
      var r := WithStatus(searched, status.value, now);
      SubsequenceTrans(r, searched, quizzes);
      r
  }

  /** The tabs of the page. */
  datatype Tab = AllTab | ActiveTab | UpcomingTab | PastTab | ResultsTab

  /** The status each quiz tab asks for: none for All, and one per time tab. */
  function TabStatus(tab: Tab): Option<QuizStatus> {
    match tab
    case AllTab => None
    case ActiveTab => Some(Available)
    case UpcomingTab => Some(Upcoming)
    case PastTab => Some(Expired)
    case ResultsTab => None
  }

  /** The quizzes listed under a quiz tab. */
  function TabQuizzes(quizzes: seq<Quiz>, query: Text, tab: Tab, now: int): seq<Quiz>
    requires tab != ResultsTab
  {
    FilterQuizzes(quizzes, query, TabStatus(tab), now)
  }

  /** An inactive quiz never shows under Active, Upcoming or Past. */
  lemma InactiveNeverInTimeTabs(quizzes: seq<Quiz>, query: Text, tab: Tab, now: int, q: Quiz)
    requires tab in {ActiveTab, UpcomingTab, PastTab}
    requires !q.active
    ensures q !in TabQuizzes(quizzes, query, tab, now)
  {
  }

  /** A quiz that matches the search is under a time tab iff it has that tab's status. */
  lemma MatchingQuizInTab(quizzes: seq<Quiz>, query: Text, tab: Tab, now: int, q: Quiz)
    requires tab in {ActiveTab, UpcomingTab, PastTab}
    requires q in quizzes
    requires query == [] || QuizMatchesQuery(q, Lower(query))
    ensures q in TabQuizzes(quizzes, query, tab, now) <==> StatusOf(q, now) == TabStatus(tab).value
  {
  }

  /**
   * An active quiz that matches the search shows under exactly one of the
   * Active, Upcoming and Past tabs.
   */
  lemma ActiveQuizInOneTimeTab(quizzes: seq<Quiz>, query: Text, now: int, q: Quiz)
    requires q in quizzes && q.active
    requires query == [] || QuizMatchesQuery(q, Lower(query))
    ensures var inActive := q in TabQuizzes(quizzes, query, ActiveTab, now);
      var inUpcoming := q in TabQuizzes(quizzes, query, UpcomingTab, now);
      var inPast := q in TabQuizzes(quizzes, query, PastTab, now);
      (inActive || inUpcoming || inPast)
      && !(inActive && inUpcoming) && !(inActive && inPast) && !(inUpcoming && inPast)
  {
    MatchingQuizInTab(quizzes, query, ActiveTab, now, q);
    MatchingQuizInTab(quizzes, query, UpcomingTab, now, q);
    MatchingQuizInTab(quizzes, query, PastTab, now, q);
  }

  /** Every quiz under a time tab is also under All. */
  lemma TimeTabsWithinAll(quizzes: seq<Quiz>, query: Text, tab: Tab, now: int, q: Quiz)
    requires tab in {ActiveTab, UpcomingTab, PastTab}
    requires q in TabQuizzes(quizzes, query, tab, now)
    ensures q in TabQuizzes(quizzes, query, AllTab, now)
  {
  }

  /** `attempt.score !== undefined ? Math.round(attempt.score) : 0` on a whole score. */
  function CardScore(a: Attempt): (s: int)
    ensures a.score.Some? ==> s == a.score.value
    ensures a.score.None? ==> s == 0
  {
    if a.score.Some? then a.score.value else 0
  }

  // ---------------------------------------------------------------------------
  // The page

  class QuizzesPage {
    var quizzes: seq<Quiz>
    var completedAttempts: seq<Attempt>

    constructor()
      ensures quizzes == [] && completedAttempts == []
    {
      quizzes := [];
      completedAttempts := [];
    }

    /** Every attempt the page keeps is completed. */
    predicate Valid()
      reads this
    {
      forall a :: a in completedAttempts ==> a.status == COMPLETED
    }

    /** loadQuizzes: the quizzes the server returns; a failure keeps the list. */
    method LoadQuizzes(response: Option<seq<Quiz>>)
      modifies this`quizzes
      ensures response.Some? ==> quizzes == response.value
      ensures response.None? ==> quizzes == old(quizzes)
    {
      if response.Some? {
        quizzes := response.value;
      }
    }

    /**
     * loadCompletedAttempts: nothing without a signed-in user; otherwise the
     * completed attempts among those the server returns, in its order; a
     * failure keeps the list.
     */
    method LoadCompletedAttempts(signedIn: bool, response: Option<seq<Attempt>>)
      requires Valid()
      modifies this`completedAttempts
      ensures Valid()
      ensures signedIn && response.Some? ==> completedAttempts == CompletedOnly(response.value)
      ensures !signedIn || response.None? ==> completedAttempts == old(completedAttempts)
    {
      if !signedIn {
        return;
      }
      if response.Some? {
        completedAttempts := CompletedOnly(response.value);
      }
    }

    /**
     * Switching tabs loads the learner's attempts only when "My Results" is
     * chosen while the list is still empty.
     */
    method SelectTab(tab: Tab, signedIn: bool, response: Option<seq<Attempt>>)
      requires Valid()
      modifies this`completedAttempts
      ensures Valid()
      ensures tab == ResultsTab && old(completedAttempts) == [] && signedIn && response.Some? ==>
        completedAttempts == CompletedOnly(response.value)
      ensures tab != ResultsTab || old(completedAttempts) != [] ==> completedAttempts == old(completedAttempts)
    {
      if tab == ResultsTab && |completedAttempts| == 0 {
        LoadCompletedAttempts(signedIn, response);
      }
    }
  }
}

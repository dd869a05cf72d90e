/**
 * The administrators' overview of every quiz's results: per quiz, the number
 * of completed attempts, the rounded mean score, the rounded pass rate and the
 * pass and fail counts, gathered one quiz after the other into a map keyed by
 * quiz id; the search and status filter over the table; the pass-rate badge
 * and the "View Results" button.
 */
module QuizResultsOverview {
  import opened Common
  import opened Types
  import opened Availability
  import opened AttemptStats
  import Quizzes

  /** The statistics kept for one quiz. */
  datatype QuizStats = QuizStats(
    totalAttempts: int,
    averageScore: int,
    passRate: int,
    passCount: int,
    failCount: int)

  /** The statistics of one quiz from the attempts the server returned for it. */
  function StatsOf(attempts: seq<Attempt>): (st: QuizStats)
    ensures st.totalAttempts == |CompletedOnly(attempts)|
    ensures st.passCount + st.failCount == st.totalAttempts
    ensures 0 <= st.passCount && 0 <= st.failCount
    ensures st.totalAttempts == 0 ==> st == QuizStats(0, 0, 0, 0, 0)
    ensures 0 <= st.passRate <= 100
  {
    var completed := CompletedOnly(attempts);
    var n := |completed|;
    var passCount := PassedCount(completed);
    QuizStats(
      n,
      if n > 0 then MeanScore(completed) else 0,
      if n > 0 then PassRate(completed) else 0,
      passCount,
      n - passCount)
  }

  /** Every quiz of the list got an answer to its attempts request. */
  predicate AllLoaded(quizzes: seq<Quiz>, attemptsFor: int -> Option<seq<Attempt>>) {
    forall i :: 0 <= i < |quizzes| ==> attemptsFor(quizzes[i].id).Some?
  }

  function Ids(quizzes: seq<Quiz>): set<int> {
    set i | 0 <= i < |quizzes| :: quizzes[i].id
  }

  /** The map `statsMap.set(quiz.id, …)` leaves after the quizzes in order. */
  function StatsMap(quizzes: seq<Quiz>, attemptsFor: int -> Option<seq<Attempt>>): map<int, QuizStats>
    requires AllLoaded(quizzes, attemptsFor)
    decreases |quizzes|
  {
    if quizzes == [] then map[]
    else
      var last := quizzes[|quizzes| - 1];
      var init := quizzes[..|quizzes| - 1];
      assert AllLoaded(init, attemptsFor) by {
        forall i | 0 <= i < |init| ensures attemptsFor(init[i].id).Some? {
          assert init[i] == quizzes[i];
        }
      }
      StatsMap(init, attemptsFor)[last.id := StatsOf(attemptsFor(last.id).value)]
  }

  /**
   * After the loop the map has one entry per quiz id of the list and no other,
   * each holding the statistics of that quiz's attempts.
   */
  lemma {:induction false} StatsMapEntries(quizzes: seq<Quiz>, attemptsFor: int -> Option<seq<Attempt>>)
    requires AllLoaded(quizzes, attemptsFor)
    ensures StatsMap(quizzes, attemptsFor).Keys == Ids(quizzes)
    ensures forall id :: id in StatsMap(quizzes, attemptsFor) ==>
      attemptsFor(id).Some? && StatsMap(quizzes, attemptsFor)[id] == StatsOf(attemptsFor(id).value)
    decreases |quizzes|
  {
    if quizzes != [] {
      var last := quizzes[|quizzes| - 1];
      var init := quizzes[..|quizzes| - 1];
      assert AllLoaded(init, attemptsFor) by {
        forall i | 0 <= i < |init| ensures attemptsFor(init[i].id).Some? {
          assert init[i] == quizzes[i];
        }
      }
      StatsMapEntries(init, attemptsFor);
      IdsSnoc(quizzes);
    }
  }

  /** The ids of a list are those of all but its last quiz, and the last quiz's. */
  lemma IdsSnoc(quizzes: seq<Quiz>)
    requires quizzes != []
    ensures Ids(quizzes) == Ids(quizzes[..|quizzes| - 1]) + {quizzes[|quizzes| - 1].id}
  {
    var init := quizzes[..|quizzes| - 1];
    forall id | id in Ids(quizzes) ensures id in Ids(init) + {quizzes[|quizzes| - 1].id} {
      var i :| 0 <= i < |quizzes| && quizzes[i].id == id;
      if i < |quizzes| - 1 {
        assert init[i] == quizzes[i];
      }
    }
    forall id | id in Ids(init) ensures id in Ids(quizzes) {
      var i :| 0 <= i < |init| && init[i].id == id;
      assert quizzes[i] == init[i];
    }
  }

  /** One more quiz loaded: its entry is set, overwriting any entry for the same id. */
  lemma StatsMapSnoc(quizzes: seq<Quiz>, q: Quiz, attemptsFor: int -> Option<seq<Attempt>>)
    requires AllLoaded(quizzes, attemptsFor) && attemptsFor(q.id).Some?
    ensures AllLoaded(quizzes + [q], attemptsFor)
    ensures StatsMap(quizzes + [q], attemptsFor) == StatsMap(quizzes, attemptsFor)[q.id := StatsOf(attemptsFor(q.id).value)]
  {
    var all := quizzes + [q];
    assert all[..|all| - 1] == quizzes;
  }

  /**
   * `quizStats.get(quiz.id) || {totalAttempts: 0, averageScore: 0, passRate: 0}`:
   * a quiz without an entry shows zeros.
   */
  function DisplayStats(quizStats: map<int, QuizStats>, id: int): (st: QuizStats)
    ensures id !in quizStats ==> st.totalAttempts == 0 && st.averageScore == 0 && st.passRate == 0
    ensures id in quizStats ==> st == quizStats[id]
  {
    if id in quizStats then quizStats[id] else QuizStats(0, 0, 0, 0, 0)
  }

  /** "View Results" is disabled when the quiz has no completed attempt. */
  predicate ViewResultsDisabled(st: QuizStats) {
    st.totalAttempts == 0
  }

  /**
   * After a complete load, a quiz's button is disabled exactly when none of
   * its attempts is completed; a quiz missing from the map is always disabled.
   */
  lemma ViewResultsDisabledIff(quizzes: seq<Quiz>, attemptsFor: int -> Option<seq<Attempt>>, id: int)
    requires AllLoaded(quizzes, attemptsFor)
    ensures id in Ids(quizzes) ==>
      (ViewResultsDisabled(DisplayStats(StatsMap(quizzes, attemptsFor), id)) <==>
        forall a :: a in attemptsFor(id).value ==> a.status != COMPLETED)
    ensures id !in Ids(quizzes) ==> ViewResultsDisabled(DisplayStats(StatsMap(quizzes, attemptsFor), id))
  {
    StatsMapEntries(quizzes, attemptsFor);
    if id in Ids(quizzes) {
      var completed := CompletedOnly(attemptsFor(id).value);
      if completed != [] {
        assert completed[0] in completed;
      }
    }
  }

  datatype BadgeColour = Green | Orange | Red

  /** The pass-rate badge: green from 75, orange from 50, red below. */
  function PassRateBadge(passRate: int): BadgeColour {
    if passRate >= 75 then Green
    else if passRate >= 50 then Orange
    else Red
  }

  function BadgeLevel(c: BadgeColour): nat {
    match c
    case Red => 0
    case Orange => 1
    case Green => 2
  }

  /** A higher pass rate never gets a worse badge, and each colour has its band. */
  lemma PassRateBadgeMonotone(r1: int, r2: int)
    requires r1 <= r2
    ensures BadgeLevel(PassRateBadge(r1)) <= BadgeLevel(PassRateBadge(r2))
    ensures PassRateBadge(r1) == Green <==> r1 >= 75
    ensures PassRateBadge(r1) == Red <==> r1 < 50
  {
  }

  predicate OverviewMatches(q: Quiz, lowerQuery: Text) {
    Includes(Lower(q.title), lowerQuery)
    || Includes(Lower(q.description), lowerQuery)
    || Includes(Lower(q.topicTitle), lowerQuery)
  }

  /**
   * The table's filter: the search when the query is not empty, then the
   * status unless 'all' is chosen (None).
   */
  function FilterOverview(quizzes: seq<Quiz>, query: Text, status: Option<QuizStatus>, now: int): (r: seq<Quiz>)
    ensures query == [] && status.None? ==> r == quizzes
    ensures forall q :: (multiset(r)[q] ==
      if (query == [] || OverviewMatches(q, Lower(query))) && (status.None? || StatusOf(q, now) == status.value)
      then multiset(quizzes)[q] else 0)
  {
    var lq := Lower(query);
    FilterCounts(quizzes, q => OverviewMatches(q, lq));
    var searched := if query != [] then Filter(quizzes, q => OverviewMatches(q, lq)) else quizzes;
    if status.Some? then
      FilterCounts(searched, q => StatusOf(q, now) == status.value);
      Filter(searched, q => StatusOf(q, now) == status.value)
    else searched
  }

  /**
   * The overview filters exactly as the learners' quiz list does: checking that
   * description and topic title are present changes nothing for a non-empty
   * query, since an empty text contains no non-empty query.
   */
  lemma FilterOverviewAgreesWithQuizList(quizzes: seq<Quiz>, query: Text, status: Option<QuizStatus>, now: int)
    ensures FilterOverview(quizzes, query, status, now) == Quizzes.FilterQuizzes(quizzes, query, status, now)
  {
    if query != [] {
      var lq := Lower(query);
      FilterCongruent(quizzes, q => OverviewMatches(q, lq), q => Quizzes.QuizMatchesQuery(q, lq));
    }
  }

  /** The overview keeps, in order, exactly the quizzes that match and have the chosen status. */
  lemma FilterOverviewKeeps(quizzes: seq<Quiz>, query: Text, status: Option<QuizStatus>, now: int)
    ensures forall q :: q in FilterOverview(quizzes, query, status, now) <==>
      q in quizzes
      && (query == [] || OverviewMatches(q, Lower(query)))
      && (status.None? || StatusOf(q, now) == status.value)
    ensures IsSubsequence(FilterOverview(quizzes, query, status, now), quizzes)
  {
    FilterOverviewAgreesWithQuizList(quizzes, query, status, now);
    var r := Quizzes.FilterQuizzes(quizzes, query, status, now);
    if query != [] {
      forall q ensures OverviewMatches(q, Lower(query)) == Quizzes.QuizMatchesQuery(q, Lower(query)) {
      }
    }
  }

  /** One iteration of the loop below, on the prefix of the quizzes it has gone through. */
  lemma GatherStep(data: seq<Quiz>, i: int, attemptsFor: int -> Option<seq<Attempt>>)
    requires 0 <= i < |data| && AllLoaded(data[..i], attemptsFor) && attemptsFor(data[i].id).Some?
    ensures AllLoaded(data[..i + 1], attemptsFor)
    ensures StatsMap(data[..i + 1], attemptsFor)
      == StatsMap(data[..i], attemptsFor)[data[i].id := StatsOf(attemptsFor(data[i].id).value)]
  {
    assert data[..i + 1] == data[..i] + [data[i]];
    StatsMapSnoc(data[..i], data[i], attemptsFor);
  }

  /**
   * The loop of loadQuizzes: each quiz's attempts are requested in turn and its
   * statistics set in the map; the first failed request abandons the loop.
   */
  method GatherStats(data: seq<Quiz>, attemptsFor: int -> Option<seq<Attempt>>)
    returns (statsMap: Option<map<int, QuizStats>>)
    ensures statsMap.Some? <==> AllLoaded(data, attemptsFor)
    ensures statsMap.Some? ==> statsMap.value == StatsMap(data, attemptsFor)
  {
    var m: map<int, QuizStats> := map[];
    var i := 0;
    while i < |data|
      invariant 0 <= i <= |data|
      invariant AllLoaded(data[..i], attemptsFor)
      invariant m == StatsMap(data[..i], attemptsFor)
    {
      var attempts := attemptsFor(data[i].id);
      if attempts.None? {
        assert !AllLoaded(data, attemptsFor) by {
          assert attemptsFor(data[i].id).None?;
        }
        return None;
      }
      GatherStep(data, i, attemptsFor);
      m := m[data[i].id := StatsOf(attempts.value)];
      i := i + 1;
    }
    assert data[..i] == data;
    return Some(m);
  }

  // ---------------------------------------------------------------------------
  // The page

  class ResultsOverviewPage {
    var quizzes: seq<Quiz>
    var quizStats: map<int, QuizStats>
    var filtered: seq<Quiz>

    constructor()
      ensures quizzes == [] && quizStats == map[] && filtered == []
    {
      quizzes := [];
      quizStats := map[];
      filtered := [];
    }

    /**
     * loadQuizzes: the quiz list is set as soon as it arrives; the statistics
     * are then gathered quiz by quiz, and the map is replaced only if every
     * quiz's attempts request succeeds: one failure abandons the loop and
     * keeps the old map.
     */
    method LoadQuizzes(response: Option<seq<Quiz>>, attemptsFor: int -> Option<seq<Attempt>>)
      modifies this`quizzes, this`quizStats
      ensures response.None? ==> quizzes == old(quizzes) && quizStats == old(quizStats)
      ensures response.Some? ==> quizzes == response.value
      ensures response.Some? && AllLoaded(response.value, attemptsFor) ==>
        quizStats == StatsMap(response.value, attemptsFor)
      ensures response.Some? && !AllLoaded(response.value, attemptsFor) ==> quizStats == old(quizStats)
    {
      if response.None? {
        return;
      }
      quizzes := response.value;
      var gathered := GatherStats(response.value, attemptsFor);
      if gathered.Some? {
        quizStats := gathered.value;
      }
    }

    /** The filter effect: the rows shown for the current search and status. */
    method ApplyFilter(query: Text, status: Option<QuizStatus>, now: int)
      modifies this`filtered
      ensures filtered == FilterOverview(quizzes, query, status, now)
    {
      filtered := FilterOverview(quizzes, query, status, now);
    }
  }
}

/**
 * The learner's dashboard: the topics created in the last seven days, the
 * quizzes that have not ended yet in order of their start, the five most
 * recently completed attempts, the four statistics cards and the quiz status
 * badge.
 */
module Dashboard {
  import opened Common
  import opened Types
  import opened Sorting
  import opened Availability
  import opened AttemptStats

  /** Seven days in milliseconds. */
  const SEVEN_DAYS_MS: int := 7 * 24 * 60 * 60 * 1000

  /** The topics whose creation time lies strictly after `now` minus seven days. */
  function RecentTopics(topics: seq<Topic>, now: int): (r: seq<Topic>)
    ensures forall t :: t in r <==> t in topics && t.createdAt > now - SEVEN_DAYS_MS
    ensures forall t :: multiset(r)[t] == if t.createdAt > now - SEVEN_DAYS_MS then multiset(topics)[t] else 0
    ensures IsSubsequence(r, topics)
  {
    FilterIsSubsequence(topics, (t: Topic) => t.createdAt > now - SEVEN_DAYS_MS);
    FilterCounts(topics, (t: Topic) => t.createdAt > now - SEVEN_DAYS_MS);
    Filter(topics, (t: Topic) => t.createdAt > now - SEVEN_DAYS_MS)
  }

  /** `!q.endTime || !isPast(endTime)`: no end time, or an end not before now. */
  predicate NotEnded(q: Quiz, now: int) {
    q.endTime.None? || q.endTime.value >= now
  }

  /** The sort key: the start time, or now for a quiz without one. */
  function StartOr(now: int): Quiz -> int {
    (q: Quiz) => q.startTime.GetOr(now)
  }

  /** The quizzes that have not ended, sorted by start time from the earliest. */
  function RelevantQuizzes(quizzes: seq<Quiz>, now: int): (r: seq<Quiz>)
    ensures multiset(r) == multiset(Filter(quizzes, q => NotEnded(q, now)))
    ensures SortedBy(r, StartOr(now))
  {
    SortBy(Filter(quizzes, q => NotEnded(q, now)), StartOr(now))
  }

  /**
   * The list holds exactly the quizzes that have not ended: no quiz in it is
   * expired, and every available quiz is in it, as is every upcoming quiz
   * whose window does not end before it starts.
   */
  lemma RelevantQuizzesMembership(quizzes: seq<Quiz>, now: int, q: Quiz)
    ensures q in RelevantQuizzes(quizzes, now) <==> q in quizzes && NotEnded(q, now)
    ensures q in RelevantQuizzes(quizzes, now) ==> StatusOf(q, now) != Expired
    ensures q in quizzes && StatusOf(q, now) == Available ==> q in RelevantQuizzes(quizzes, now)
    ensures q in quizzes && StatusOf(q, now) == Upcoming && (q.endTime.Some? ==> q.startTime.value <= q.endTime.value)
      ==> q in RelevantQuizzes(quizzes, now)
  {
    var kept := Filter(quizzes, q => NotEnded(q, now));
    var r := RelevantQuizzes(quizzes, now);
    assert q in r <==> q in multiset(r);
    assert q in kept <==> q in multiset(kept);
  }

  /** `a.completedAt ? time : 0` */
  function CompletedAtOrZero(a: Attempt): int {
    a.completedAt.GetOr(0)
  }

  const RECENT_LIMIT: nat := 5

  /** The completed attempts sorted by completion time, latest first, and cut to five. */
  function RecentAttempts(completed: seq<Attempt>): (r: seq<Attempt>)
    ensures |r| == Min(RECENT_LIMIT, |completed|)
    ensures SortedDescBy(r, CompletedAtOrZero)
    ensures multiset(r) <= multiset(completed)
  {
    var sorted := SortByDesc(completed, CompletedAtOrZero);
    var n := Min(RECENT_LIMIT, |sorted|);
    assert sorted == sorted[..n] + sorted[n..];
    assert multiset(sorted) == multiset(sorted[..n]) + multiset(sorted[n..]);
    sorted[..n]
  }

  /**
   * An attempt left off the list was completed no later than every attempt on
   * it; the list is cut only when there are more than five.
   */
  lemma RecentAttemptsAreLatest(completed: seq<Attempt>, x: Attempt, y: Attempt)
    requires x in completed && x !in RecentAttempts(completed)
    requires y in RecentAttempts(completed)
    ensures CompletedAtOrZero(x) <= CompletedAtOrZero(y)
    ensures |completed| > RECENT_LIMIT
  {
    var sorted := SortByDesc(completed, CompletedAtOrZero);
    var r := RecentAttempts(completed);
    assert r == sorted[..|r|];
    assert x in multiset(sorted);
    var j :| 0 <= j < |sorted| && sorted[j] == x;
    var i :| 0 <= i < |r| && r[i] == y;
    assert j >= |r|;
  }

  /** The four statistics cards. */
  datatype DashboardStats = DashboardStats(
    totalTopics: int,
    availableQuizzes: int,
    completedQuizzes: int,
    passedQuizzes: int)

  /**
   * The cards after loading: the topic and quiz counts always; the completed
   * and passed counts from the user's attempts, or 0 without a user or when
   * their attempts cannot be loaded.
   */
  function StatsAfterLoad(topics: seq<Topic>, relevant: seq<Quiz>, signedIn: bool, attempts: Option<seq<Attempt>>): (st: DashboardStats)
    ensures st.totalTopics == |topics| && st.availableQuizzes == |relevant|
    ensures 0 <= st.passedQuizzes <= st.completedQuizzes
    ensures !signedIn || attempts.None? ==> st.completedQuizzes == 0 && st.passedQuizzes == 0
    ensures signedIn && attempts.Some? ==> st.completedQuizzes == |CompletedOnly(attempts.value)|
  {
    if signedIn && attempts.Some? then
      var completed := CompletedOnly(attempts.value);
      DashboardStats(|topics|, |relevant|, |completed|, PassedCount(completed))
    else DashboardStats(|topics|, |relevant|, 0, 0)
  }

  /** The pass-rate card: 0 without completed attempts, else the rounded percentage passed. */
  function DisplayedPassRate(st: DashboardStats): int {
    if st.completedQuizzes > 0 then Percent(st.passedQuizzes, st.completedQuizzes) else 0
  }

  /** The pass-rate card of loaded statistics lies in [0, 100]. */
  lemma DisplayedPassRateInRange(topics: seq<Topic>, relevant: seq<Quiz>, signedIn: bool, attempts: Option<seq<Attempt>>)
    ensures 0 <= DisplayedPassRate(StatsAfterLoad(topics, relevant, signedIn, attempts)) <= 100
  {
    var st := StatsAfterLoad(topics, relevant, signedIn, attempts);
    if st.completedQuizzes > 0 {
      PercentInRange(st.passedQuizzes, st.completedQuizzes);
    }
  }

  /** The label of the status badge. */
  function StatusLabel(st: QuizStatus): Text {
    match st
    case Inactive => "Inactive"
    case Upcoming => "Upcoming"
    case Expired => "Expired"
    case Available => "Active"
  }

  // ---------------------------------------------------------------------------
  // The page

  class DashboardPage {
    var latestTopics: seq<Topic>
    var upcomingQuizzes: seq<Quiz>
    var recentAttempts: seq<Attempt>
    var stats: DashboardStats

    constructor()
      ensures latestTopics == [] && upcomingQuizzes == [] && recentAttempts == []
      ensures stats == DashboardStats(0, 0, 0, 0)
    {
      latestTopics := [];
      upcomingQuizzes := [];
      recentAttempts := [];
      stats := DashboardStats(0, 0, 0, 0);
    }

    /**
     * loadDashboardData: `lists` is the topics and quizzes response (None when
     * either request fails, which leaves the page as it was); `attempts` is the
     * signed-in user's attempts response.
     */
    method LoadDashboard(lists: Option<(seq<Topic>, seq<Quiz>)>, signedIn: bool, attempts: Option<seq<Attempt>>, now: int)
      modifies this
      ensures lists.None? ==>
        latestTopics == old(latestTopics) && upcomingQuizzes == old(upcomingQuizzes)
        && recentAttempts == old(recentAttempts) && stats == old(stats)
      ensures lists.Some? ==>
        latestTopics == RecentTopics(lists.value.0, now)
        && upcomingQuizzes == RelevantQuizzes(lists.value.1, now)
        && stats == StatsAfterLoad(lists.value.0, upcomingQuizzes, signedIn, attempts)
      ensures lists.Some? && signedIn && attempts.Some? ==>
        recentAttempts == RecentAttempts(CompletedOnly(attempts.value))
      ensures lists.None? || !signedIn || attempts.None? ==> recentAttempts == old(recentAttempts)
      ensures stats.passedQuizzes <= stats.completedQuizzes || lists.None?
    {
      if lists.None? {
        return;
      }
      var (topics, quizzes) := lists.value;
      latestTopics := RecentTopics(topics, now);
      var relevant := RelevantQuizzes(quizzes, now);
      upcomingQuizzes := relevant;
      if signedIn && attempts.Some? {
        var completed := CompletedOnly(attempts.value);
        recentAttempts := RecentAttempts(completed);
      }
      stats := StatsAfterLoad(topics, relevant, signedIn, attempts);
    }
  }
}

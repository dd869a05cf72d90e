/**
 * The administrators' analytics page for one quiz: a leaderboard of the
 * completed attempts, best score first and ranked 1, 2, 3, … without ties, the
 * summary statistics over the same attempts, and the rank badge.
 */
module QuizAnalytics {
  import opened Common
  import opened Types
  import opened Sorting
  import opened AttemptStats

  /** One leaderboard row (QuizRanking). */
  datatype Ranking = Ranking(
    rank: int,
    attempt: Attempt,
    firstName: Text,
    lastName: Text,
    score: int,
    correctAnswers: int,
    totalQuestions: int,
    passed: bool)

  /**
   * The names shown for an attempt: the attached user's, or else the full name
   * split at its first space (`split(' ')[0] || ''` and
   * `split(' ').slice(1).join(' ') || ''`), or empty names without either.
   */
  function DisplayNames(a: Attempt): (Text, Text) {
    if a.user.Some? then (a.user.value.firstName, a.user.value.lastName)
    else if a.userFullName.Some? then SplitAtFirstSpace(a.userFullName.value)
    else ([], [])
  }

  /** The fallback split gives back the full name when it holds a space, and an empty last name otherwise. */
  lemma FallbackNamesRoundTrip(a: Attempt)
    requires a.user.None? && a.userFullName.Some?
    ensures ' ' in a.userFullName.value ==> DisplayNames(a).0 + " " + DisplayNames(a).1 == a.userFullName.value
    ensures ' ' !in a.userFullName.value ==> DisplayNames(a) == (a.userFullName.value, [])
  {
    SplitAtFirstSpaceRejoins(a.userFullName.value);
  }

  /** The row for the attempt at position `index` of the sorted list. */
  function RankingRow(a: Attempt, index: int): Ranking {
    var (first, last) := DisplayNames(a);
    Ranking(index + 1, a, first, last, ScoreOf(a), OrZero(a.correctAnswers), OrZero(a.totalQuestions), PassedOf(a))
  }

  /** The attempts behind the rows, in row order. */
  function AttemptsOf(rows: seq<Ranking>): (r: seq<Attempt>)
    ensures |r| == |rows| && forall i :: 0 <= i < |rows| ==> r[i] == rows[i].attempt
  {
    seq(|rows|, i requires 0 <= i < |rows| => rows[i].attempt)
  }

  /**
   * The leaderboard for the attempts the server returned: the completed ones,
   * sorted by score (missing = 0) from the highest down, ranked from 1.
   */
  function Rankings(attempts: seq<Attempt>): (r: seq<Ranking>)
    ensures multiset(AttemptsOf(r)) == multiset(CompletedOnly(attempts))
    ensures forall i :: 0 <= i < |r| ==> r[i].rank == i + 1
    ensures forall i, j :: 0 <= i < j < |r| ==> r[i].score >= r[j].score
    ensures forall i :: 0 <= i < |r| ==>
      var a := r[i].attempt;
      r[i].score == ScoreOf(a) && r[i].correctAnswers == OrZero(a.correctAnswers)
      && r[i].totalQuestions == OrZero(a.totalQuestions) && (r[i].passed <==> a.passed == Some(true))
      && (r[i].firstName, r[i].lastName) == DisplayNames(a)
  {
    var sorted := SortByDesc(CompletedOnly(attempts), ScoreOf);
    var rows := seq(|sorted|, i requires 0 <= i < |sorted| => RankingRow(sorted[i], i));
    assert AttemptsOf(rows) == sorted;
    rows
  }

  /** Exactly the completed attempts are ranked. */
  lemma RankingsHoldCompletedAttempts(attempts: seq<Attempt>, a: Attempt)
    ensures a in AttemptsOf(Rankings(attempts)) <==> a in attempts && a.status == COMPLETED
  {
    var ranked := AttemptsOf(Rankings(attempts));
    assert a in ranked <==> a in multiset(ranked);
    assert a in CompletedOnly(attempts) <==> a in multiset(CompletedOnly(attempts));
  }

  /** No two rows share a rank, even for equal scores, and the ranks run 1..n. */
  lemma RanksAreDistinct(attempts: seq<Attempt>, i: int, j: int)
    requires 0 <= i < |Rankings(attempts)| && 0 <= j < |Rankings(attempts)| && i != j
    ensures Rankings(attempts)[i].rank != Rankings(attempts)[j].rank
    ensures 1 <= Rankings(attempts)[i].rank <= |CompletedOnly(attempts)|
  {
    var r := Rankings(attempts);
    assert |AttemptsOf(r)| == |multiset(AttemptsOf(r))| == |CompletedOnly(attempts)|;
  }

  /** The statistics cards (getStatistics). */
  datatype Statistics = Statistics(totalAttempts: int, averageScore: int, passRate: int, averageTime: int)

  /** The statistics over the completed attempts the page keeps. */
  function GetStatistics(completed: seq<Attempt>): (st: Statistics)
    ensures completed == [] ==> st == Statistics(0, 0, 0, 0)
    ensures completed != [] ==> st.totalAttempts == |completed| && 0 <= st.passRate <= 100
  {
    if completed == [] then Statistics(0, 0, 0, 0)
    else Statistics(|completed|, MeanScore(completed), PassRate(completed), AverageMinutes(completed))
  }

  /** The average score lies between the lowest and the highest score ranked. */
  lemma AverageScoreBetween(attempts: seq<Attempt>)
    requires CompletedOnly(attempts) != []
    ensures LowestScore(CompletedOnly(attempts)) <= GetStatistics(CompletedOnly(attempts)).averageScore
    ensures GetStatistics(CompletedOnly(attempts)).averageScore <= HighestScore(CompletedOnly(attempts))
  {
    MeanScoreBetween(CompletedOnly(attempts));
  }

  /** The top row holds the highest score of the completed attempts. */
  lemma TopRowHasHighestScore(attempts: seq<Attempt>)
    requires CompletedOnly(attempts) != []
    ensures |Rankings(attempts)| > 0
    ensures Rankings(attempts)[0].score == HighestScore(CompletedOnly(attempts))
  {
    TopRowOf(CompletedOnly(attempts), Rankings(attempts));
  }

  /** Rows ordered by score, over the same attempts, start with the highest score. */
  lemma TopRowOf(completed: seq<Attempt>, r: seq<Ranking>)
    requires completed != []
    requires multiset(AttemptsOf(r)) == multiset(completed)
    requires forall i, j :: 0 <= i < j < |r| ==> r[i].score >= r[j].score
    requires forall i :: 0 <= i < |r| ==> r[i].score == ScoreOf(r[i].attempt)
    ensures |r| > 0 && r[0].score == HighestScore(completed)
  {
    var ranked := AttemptsOf(r);
    assert |ranked| == |multiset(ranked)| == |completed|;
    var k :| 0 <= k < |completed| && ScoreOf(completed[k]) == HighestScore(completed);
    assert completed[k] in multiset(ranked);
    var j :| 0 <= j < |ranked| && ranked[j] == completed[k];
    assert r[0].score >= r[j].score;
    assert ranked[0] in multiset(completed);
    var m :| 0 <= m < |completed| && completed[m] == ranked[0];
  }

  // ---------------------------------------------------------------------------
  // Rank badge

  /** The rank badge as written: 1st, 2nd, 3rd, and `${rank}th` for every other rank. */
  function RankBadge(rank: int): Text {
    if rank == 1 then "1st"
    else if rank == 2 then "2nd"
    else if rank == 3 then "3rd"
    else IntToString(rank) + "th"
  }

  /** The as-written badge prints the twenty-first place as "21th". */
  lemma RankBadgeTwentyFirst()
    ensures RankBadge(21) == "21th"
    ensures RankBadge(22) == "22th" && RankBadge(23) == "23th"
  {
  }

  /**
   * The English ordinal suffix: "st", "nd", "rd" after a last digit 1, 2, 3,
   * except for numbers ending in 11, 12, 13, and "th" for every other number.
   */
  function OrdinalSuffix(n: nat): (s: Text)
    ensures |s| == 2 && !IsDigit(s[0])
    ensures s == "st" <==> n % 10 == 1 && n % 100 != 11
    ensures s == "nd" <==> n % 10 == 2 && n % 100 != 12
    ensures s == "rd" <==> n % 10 == 3 && n % 100 != 13
    ensures s == "th" <==> !(n % 10 in {1, 2, 3}) || 11 <= n % 100 <= 13
  {
    if n % 100 / 10 == 1 then "th"
    else if n % 10 == 1 then "st"
    else if n % 10 == 2 then "nd"
    else if n % 10 == 3 then "rd"
    else "th"
  }

  /** The badge with the English ordinal suffix for every rank. */
  function OrdinalRankBadge(rank: nat): (t: Text)
    ensures rank <= 20 ==> t == RankBadge(rank)
  {
    IntToString(rank) + OrdinalSuffix(rank)
  }

  /** Past twenty the corrected badge reads 21st, 22nd, 23rd and 24th. */
  lemma OrdinalBadgesPastTwenty()
    ensures OrdinalRankBadge(21) == "21st" && OrdinalRankBadge(22) == "22nd"
    ensures OrdinalRankBadge(23) == "23rd" && OrdinalRankBadge(24) == "24th"
  {
  }

  /** Past a hundred: 101st, but 111th, as for the teens. */
  lemma OrdinalBadgesPastHundred()
    ensures OrdinalRankBadge(101) == "101st" && OrdinalRankBadge(111) == "111th"
  {
  }

  /**
   * The corrected badge starts with the rank, which parseInt reads back, and
   * ends with the English suffix.
   */
  lemma OrdinalRankBadgeReadsBack(rank: nat)
    ensures ParseInt(OrdinalRankBadge(rank)) == Num(rank)
    ensures OrdinalRankBadge(rank)[|OrdinalRankBadge(rank)| - 2..] == OrdinalSuffix(rank)
  {
    var suffix := OrdinalSuffix(rank);
    ParseIntReadsNumber(rank, suffix);
    var t := IntToString(rank) + suffix;
    assert t[|t| - 2..] == suffix;
  }
}

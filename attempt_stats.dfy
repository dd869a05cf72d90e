/**
 * The attempt statistics several result pages compute the same way: the
 * completed attempts, the rounded mean score, the rounded pass rate, the
 * rounded mean time in minutes, and the elapsed time of an attempt as
 * minutes and seconds.
 */
module AttemptStats {
  import opened Common
  import opened Types

  /** `attempts.filter(a => a.status === 'COMPLETED')` */
  function CompletedOnly(attempts: seq<Attempt>): (r: seq<Attempt>)
    ensures forall a :: a in r <==> a in attempts && a.status == COMPLETED
    ensures forall a :: multiset(r)[a] == if a.status == COMPLETED then multiset(attempts)[a] else 0
    ensures IsSubsequence(r, attempts)
  {
    FilterIsSubsequence(attempts, IsCompleted);
    FilterCounts(attempts, IsCompleted);
    Filter(attempts, IsCompleted)
  }

  /** `attempts.filter(a => a.passed).length` */
  function PassedCount(attempts: seq<Attempt>): (n: nat)
    ensures n <= |attempts|
  {
    Count(attempts, PassedOf)
  }

  /** The sum of the scores, a missing score counting as 0. */
  function ScoreTotal(attempts: seq<Attempt>): int {
    SumBy(attempts, ScoreOf)
  }

  /** `Math.round(total / n)` over the scores. */
  function MeanScore(attempts: seq<Attempt>): int
    requires |attempts| > 0
  {
    RoundDiv(ScoreTotal(attempts), |attempts|)
  }

  function HighestScore(attempts: seq<Attempt>): int
    requires |attempts| > 0
  {
    MaxBy(attempts, ScoreOf)
  }

  function LowestScore(attempts: seq<Attempt>): int
    requires |attempts| > 0
  {
    MinBy(attempts, ScoreOf)
  }

  /** The rounded mean lies between the lowest and the highest score. */
  lemma MeanScoreBetween(attempts: seq<Attempt>)
    requires |attempts| > 0
    ensures LowestScore(attempts) <= MeanScore(attempts) <= HighestScore(attempts)
  {
    var lo := LowestScore(attempts);
    var hi := HighestScore(attempts);
    var n := |attempts|;
    forall a | a in attempts
      ensures lo <= ScoreOf(a) <= hi
    {
      var i :| 0 <= i < n && attempts[i] == a;
    }
    SumByBetween(attempts, ScoreOf, lo, hi);
    assert n * lo == lo * n && n * hi == hi * n;
    RoundDivBetween(ScoreTotal(attempts), n, lo, hi);
  }

  /** `Math.round((passed / n) * 100)` */
  function PassRate(attempts: seq<Attempt>): (r: int)
    requires |attempts| > 0
    ensures 0 <= r <= 100
  {
    PercentInRange(PassedCount(attempts), |attempts|);
    Percent(PassedCount(attempts), |attempts|)
  }

  predicate HasEndTime(a: Attempt) {
    a.completedAt.Some?
  }

  /** The elapsed milliseconds of an attempt with both times, else 0. */
  function DurationMs(a: Attempt): int {
    if a.completedAt.Some? then a.completedAt.value - a.startedAt else 0
  }

  /**
   * The rounded mean duration in minutes over the attempts with an end time,
   * or 0 when none has one.
   */
  function AverageMinutes(attempts: seq<Attempt>): int {
    var timed := Filter(attempts, HasEndTime);
    if timed == [] then 0 else RoundDiv(SumBy(timed, DurationMs), |timed| * 60000)
  }

  /** No attempt ends before it starts, so the mean time is not negative. */
  lemma AverageMinutesNonNegative(attempts: seq<Attempt>)
    requires forall a :: a in attempts ==> DurationMs(a) >= 0
    ensures AverageMinutes(attempts) >= 0
  {
    var timed := Filter(attempts, HasEndTime);
    if timed != [] {
      forall a | a in timed
        ensures DurationMs(a) >= 0
      {
        var i :| 0 <= i < |timed| && timed[i] == a;
      }
      SumByNonNegative(timed, DurationMs);
      RoundDivNonNegative(SumBy(timed, DurationMs), |timed| * 60000);
    }
  }

  /**
   * Every statistic depends only on which attempts there are, not on their
   * order, so re-sorting the table never changes the cards above it.
   */
  lemma StatisticsIgnoreOrder(s: seq<Attempt>, t: seq<Attempt>)
    requires |s| > 0 && multiset(s) == multiset(t)
    ensures |t| == |s|
    ensures MeanScore(s) == MeanScore(t) && PassRate(s) == PassRate(t)
    ensures HighestScore(s) == HighestScore(t) && LowestScore(s) == LowestScore(t)
    ensures AverageMinutes(s) == AverageMinutes(t)
  {
    assert |t| == |multiset(t)| == |s|;
    SumByPermutation(s, t, ScoreOf);
    FilterPermutation(s, t, PassedOf);
    assert PassedCount(s) == |multiset(Filter(s, PassedOf))| == PassedCount(t);
    MaxMinPermutation(s, t, ScoreOf);
    FilterPermutation(s, t, HasEndTime);
    var ts, tt := Filter(s, HasEndTime), Filter(t, HasEndTime);
    assert |ts| == |multiset(ts)| == |tt|;
    SumByPermutation(ts, tt, DurationMs);
  }

  // ---------------------------------------------------------------------------
  // Elapsed time as `${minutes}m ${seconds}s`

  lemma DivUnique(d: int, k: int, q: int, r: int)
    requires k > 0 && d == k * q + r && 0 <= r < k
    ensures d / k == q && d % k == r
  {
    var q0 := d / k;
    var r0 := d % k;
    assert d == k * q0 + r0;
    assert k * (q + 1) == k * q + k && k * (q0 + 1) == k * q0 + k;
    if q0 > q {
      MulMonotone(k, q + 1, q0);
    } else if q0 < q {
      MulMonotone(k, q0 + 1, q);
    }
  }

  /**
   * Minutes and seconds of a duration in milliseconds, as
   * `Math.floor(d / 1000 / 60)` and `Math.floor((d / 1000) % 60)` give them.
   * For a non-negative duration they split its whole seconds.
   */
  function ElapsedParts(durationMs: int): (r: (int, int))
    ensures durationMs >= 0 ==> 0 <= r.1 < 60 && 60 * r.0 + r.1 == durationMs / 1000
    ensures durationMs < 0 ==> r.0 < 0 && -60 <= r.1 <= 0
  {
    var minutes := durationMs / 60000;
    var seconds := JsRem(durationMs, 60000) / 1000;
    if durationMs >= 0 then
      var rem := durationMs % 60000;
      assert durationMs == 60000 * minutes + rem;
      var s1 := rem / 1000;
      var s2 := rem % 1000;
      assert rem == 1000 * s1 + s2;
      DivUnique(durationMs, 1000, 60 * minutes + s1, s2);
      (minutes, seconds)
    else
      (minutes, seconds)
  }

  /** `formatTime(startedAt, completedAt)`: 'N/A' without an end time. */
  function FormatElapsed(startedAt: int, completedAt: Option<int>): Text {
    if completedAt.None? then "N/A"
    else
      var (m, s) := ElapsedParts(completedAt.value - startedAt);
      IntToString(m) + "m " + IntToString(s) + "s"
  }

  /** The text starts with the whole minutes, which parseInt reads back. */
  lemma FormatElapsedReadsBack(startedAt: int, completedAt: int)
    ensures ParseInt(FormatElapsed(startedAt, Some(completedAt))) == Num(ElapsedParts(completedAt - startedAt).0)
  {
    var (m, s) := ElapsedParts(completedAt - startedAt);
    var rest := "m " + IntToString(s) + "s";
    assert FormatElapsed(startedAt, Some(completedAt)) == IntToString(m) + rest;
    ParseIntReadsNumber(m, rest);
  }
}

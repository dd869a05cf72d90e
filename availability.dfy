/**
 * Quiz availability. Three pages classify a quiz the same way, with the same
 * precedence: an inactive quiz is inactive whatever its window; an active one
 * is upcoming while its start lies in the future, expired once its end lies in
 * the past, and available otherwise. Both comparisons are strict, so at the
 * very start and at the very end instant the quiz is available.
 */
module Availability {
  import opened Common
  import opened Types

  datatype QuizStatus = Inactive | Upcoming | Expired | Available

  predicate StartsAfter(startTime: Option<int>, now: int) {
    startTime.Some? && now < startTime.value
  }

  predicate EndedBefore(endTime: Option<int>, now: int) {
    endTime.Some? && now > endTime.value
  }

  /** The status of a quiz with the given flag and window at time `now`. */
  function Classify(active: bool, startTime: Option<int>, endTime: Option<int>, now: int): (st: QuizStatus)
    ensures st == Inactive <==> !active
    ensures st == Upcoming <==> active && StartsAfter(startTime, now)
    ensures st == Expired <==> active && !StartsAfter(startTime, now) && EndedBefore(endTime, now)
  {
    if !active then Inactive
    else if StartsAfter(startTime, now) then Upcoming
    else if EndedBefore(endTime, now) then Expired
    else Available
  }

  function StatusOf(q: Quiz, now: int): QuizStatus {
    Classify(q.active, q.startTime, q.endTime, now)
  }

  /** A quiz is available exactly when it is active and `now` lies in its closed window. */
  lemma AvailableIffInWindow(active: bool, startTime: Option<int>, endTime: Option<int>, now: int)
    ensures Classify(active, startTime, endTime, now) == Available <==>
      active
      && (startTime.None? || startTime.value <= now)
      && (endTime.None? || now <= endTime.value)
  {
  }

  /** The stages an active quiz passes through: upcoming, available, expired. */
  function Stage(st: QuizStatus): nat {
    match st
    case Upcoming => 0
    case Available => 1
    case Expired => 2
    case Inactive => 3
  }

  /**
   * For an active quiz whose window is well formed, the status never goes back
   * as time passes.
   */
  lemma StatusMonotoneInTime(startTime: Option<int>, endTime: Option<int>, t1: int, t2: int)
    requires startTime.Some? && endTime.Some? ==> startTime.value <= endTime.value
    requires t1 <= t2
    ensures Stage(Classify(true, startTime, endTime, t1)) <= Stage(Classify(true, startTime, endTime, t2))
  {
  }

  /** At the start and end instants an active quiz is already and still available. */
  lemma BoundariesAvailable(start: int, end: int)
    requires start <= end
    ensures Classify(true, Some(start), Some(end), start) == Available
    ensures Classify(true, Some(start), Some(end), end) == Available
  {
  }
}

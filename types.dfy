/**
 * The entities the pages exchange with the server, reduced to the fields the
 * modelled logic reads. Timestamps are integers (milliseconds since the epoch),
 * scores and points are whole numbers, and an optional field of the server's
 * JSON is an Option.
 */
module Types {
  import opened Common

  datatype UserRole = ADMIN | MODERATOR | USER | GUEST

  /** Resource kinds; OtherType stands for any other value the server sends. */
  datatype ResourceType = PDF | LINK | DOCUMENT | VIDEO | OtherType(name: Text)

  datatype AttemptStatus = IN_PROGRESS | COMPLETED | EXPIRED | ABANDONED

  datatype NotificationType = NEW_TOPIC | NEW_QUIZ | QUIZ_RESULT | ANNOUNCEMENT

  /** A JavaScript optional number is truthy when present and non-zero. */
  predicate Truthy(x: Option<int>) {
    x.Some? && x.value != 0
  }

  /** `x || 0` on an optional number. */
  function OrZero(x: Option<int>): int {
    x.GetOr(0)
  }

  /** The quiz record (QuizDto) as the pages read it. */
  datatype Quiz = Quiz(
    id: int,
    title: Text,
    description: Text,
    topicId: int,
    topicTitle: Text,
    durationMinutes: int,
    passingScore: int,
    active: bool,
    startTime: Option<int>,
    endTime: Option<int>,
    shuffleQuestions: bool,
    showResultsImmediately: bool,
    questionCount: int)

  /** The user record the administration pages read. */
  datatype User = User(
    id: int,
    email: Text,
    username: Text,
    firstName: Text,
    lastName: Text,
    phoneNumber: Text,
    role: UserRole,
    active: bool)

  /** A quiz attempt as the result pages read it (QuizAttemptSummaryDto). */
  datatype Attempt = Attempt(
    id: int,
    quizId: int,
    userFullName: Option<Text>,
    user: Option<User>,
    status: AttemptStatus,
    startedAt: int,
    completedAt: Option<int>,
    score: Option<int>,
    passed: Option<bool>,
    correctAnswers: Option<int>,
    totalQuestions: Option<int>)

  predicate IsCompleted(a: Attempt) {
    a.status == COMPLETED
  }

  /** `attempt.score || 0` */
  function ScoreOf(a: Attempt): int {
    OrZero(a.score)
  }

  /** `attempt.passed || false` */
  predicate PassedOf(a: Attempt) {
    a.passed == Some(true)
  }

  datatype Topic = Topic(
    id: int,
    title: Text,
    description: Text,
    parentTopicId: Option<int>,
    createdAt: int)

  datatype Resource = Resource(
    id: int,
    title: Text,
    description: Option<Text>,
    resourceType: ResourceType,
    url: Text,
    topicId: Option<int>,
    displayOrder: int,
    active: bool)

  datatype Notification = Notification(
    id: int,
    title: Text,
    message: Text,
    notificationType: NotificationType,
    read: bool,
    relatedId: Option<int>)

  /** `hasRole(roles)`: the signed-in user's role is one of `roles`. */
  predicate HasRole(user: Option<User>, roles: seq<UserRole>) {
    user.Some? && user.value.role in roles
  }
}

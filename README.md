# Quiz platform front end, modelled in Dafny

This project models the client-side logic of a React front end for a
learning platform. Learners browse topics, take timed quizzes and review
their results. Moderators manage topics, resources, quizzes and questions.
Administrators manage users, follow quiz statistics and export results. A
set of mock school-administration screens (a user directory and a payments
page) completes the front end.

Persistence, grading and authentication live on a remote server. Every
server call therefore becomes a parameter of the model: the reply the
server gave (`Some(data)` / `None` for a failed request, `accepted: bool`,
or a small outcome datatype). The model then states what the page does
with each possible reply. The clock is also a parameter (`now`, integer
milliseconds). So are the date formatting and `encodeURIComponent`.

One Dafny module per source file:

| module | source file | form |
|---|---|---|
| `QuizTaking` | src/pages/QuizTaking.tsx | class: answer map, in-flight set, page state, countdown |
| `Topics` | src/pages/Topics.tsx | imperative forest builder and pure filter |
| `QuizResult` | src/pages/QuizResult.tsx | functions and lemmas |
| `QuizAnalytics` | src/pages/admin/QuizAnalytics.tsx | functions and lemmas |
| `QuizResultsDetail`, `Csv` | src/pages/admin/QuizResultsDetail.tsx | class for the sorted table, functions for statistics and CSV |
| `QuizResultsOverview` | src/pages/admin/QuizResultsOverview.tsx | loop over the quizzes, class for the page |
| `Dashboard` | src/pages/Dashboard.tsx | functions and a loader method |
| `Quizzes` | src/pages/Quizzes.tsx | functions and a small class |
| `UserResultDetail` | src/pages/admin/UserResultDetail.tsx | functions and lemmas |
| `QuizEdit` | src/pages/moderator/QuizEdit.tsx | class with the question list; swaps on an array copy |
| `QuizQuestions` | src/pages/moderator/QuizQuestions.tsx | class and a loop issuing answer updates |
| `QuestionManagement` | src/pages/moderator/QuestionManagement.tsx | class |
| `QuestionForm` | shared answer-option form of the two pages above | functions and lemmas |
| `QuizManagement` | src/pages/moderator/QuizManagement.tsx | class and filter functions |
| `ResourceManagement` | src/pages/moderator/ResourceManagement.tsx | class and filter functions |
| `TopicManagement` | src/pages/moderator/TopicManagement.tsx | class and functions |
| `AdminUserManagement` | src/pages/admin/UserManagement.tsx (live part) | class and functions |
| `Login` | src/pages/Login.tsx (live part) | class and an error classifier |
| `NotificationBell` | src/components/NotificationBell.tsx | class and functions |
| `Layout` | src/components/Layout.tsx | functions |
| `UserDirectory` | src/components/UserManagement.tsx | class and filter functions |
| `AddUserModal` | src/components/AddUserModal.tsx | class |
| `PaymentManagement` | src/components/PaymentManagement.tsx | functions over a view value |
| `TransactionTable` | src/components/TransactionTable.tsx | functions |

Shared modules: `Types` (the enums and records of src/types/index.ts),
`Availability` (the status classifier that three pages each write out),
`AttemptStats` (the attempt statistics shared by the admin pages),
`Sorting` (a stable sort by an integer key, as `Array.prototype.sort` is)
and `Common` (JavaScript's `toLowerCase`, `includes`, `trim`, `parseInt`,
number-to-text, `Math.round` of a quotient, and `filter`).

Numbers are integers. `Math.round(a / b)` becomes half-up integer rounding.
Scores are taken to be whole numbers. Text is a sequence of characters with
ASCII case folding.

## Model

| member | source | states |
|---|---|---|
| QuizTaking.BuildAnswerMap | src/pages/QuizTaking.tsx:86-95 | the loop over stored answers builds exactly `ResumedAnswers`: usable answers only, a later answer for the same question replacing an earlier one |
| QuizTaking.ResumedAnswersSpec | src/pages/QuizTaking.tsx:87-93 | a question has a resumed answer iff some stored answer with question, option and id is for it, and the record is the last such answer's |
| QuizTaking.TickValue | src/pages/QuizTaking.tsx:54-60 | a tick turns a value at most 1 into 0 and asks for auto-submit; any other value goes down by one without submitting |
| QuizTaking.CountdownSubmitsAfterExactlyT | src/pages/QuizTaking.tsx:51-65 | from t > 0 seconds the first t-1 ticks count down without submitting, and tick t reaches 0 and submits |
| QuizTaking.UnansweredCount | src/pages/QuizTaking.tsx:257-260 | the number of questions with no map entry, never more than the questions |
| QuizTaking.UnansweredZeroIff | src/pages/QuizTaking.tsx:257-260 | the unanswered count is 0 iff every question id is a key of the answer map |
| QuizTaking.QuizTakingPage.Unanswered | src/pages/QuizTaking.tsx:257-260 | the page's unanswered count, at most the number of questions |
| QuizTaking.QuizTakingPage.Preview | src/pages/QuizTaking.tsx:122-124 | the preview page: no attempt, no questions, no answers, nothing in flight |
| QuizTaking.QuizTakingPage.Resume | src/pages/QuizTaking.tsx:76-97 | resuming: state taking, the attempt's remaining time (`|| 0`), the answers rebuilt from the stored ones |
| QuizTaking.QuizTakingPage.StartQuiz | src/pages/QuizTaking.tsx:134-156 | without a quiz or a user, or when creating the attempt or reloading the quiz fails, nothing changes; otherwise the reloaded quiz and its questions, the new attempt, taking, with `remainingSeconds` or the earlier quiz's duration*60 |
| QuizTaking.QuizTakingPage.BeginAnswerSelect | src/pages/QuizTaking.tsx:159-185 | no effect without an attempt or while the question is in flight; otherwise the chosen option at once, the existing id or the placeholder -1, and the question marked in flight |
| QuizTaking.QuizTakingPage.FinishAnswerSelect | src/pages/QuizTaking.tsx:186-238 | success: a first answer takes the server's id, an update keeps its id; failure: the prior record is restored or the entry deleted; the question leaves the in-flight set; other entries unchanged |
| QuizTaking.QuizTakingPage.SelectAnswer | src/pages/QuizTaking.tsx:159-238 | the whole handler: the in-flight set is as before, a refused or failed selection leaves the answers as they were, a saved one records the option |
| QuizTaking.QuizTakingPage.Next | src/pages/QuizTaking.tsx:241-245 | moves forward only below the last index; the index stays in range |
| QuizTaking.QuizTakingPage.Previous | src/pages/QuizTaking.tsx:247-251 | moves back only above 0; the index stays in range |
| QuizTaking.QuizTakingPage.JumpToQuestion | src/pages/QuizTaking.tsx:253-255 | sets the index; callers pass an index of a question, which keeps it in range |
| QuizTaking.QuizTakingPage.BeginSubmit | src/pages/QuizTaking.tsx:271-276 | without quiz or attempt nothing; otherwise submitting with the dialog closed |
| QuizTaking.QuizTakingPage.FinishSubmit | src/pages/QuizTaking.tsx:277-287 | completed when the server accepted, back to taking otherwise |
| QuizTaking.QuizTakingPage.Submit | src/pages/QuizTaking.tsx:271-288 | taking to submitting to completed or taking; a no-op without quiz and attempt |
| QuizTaking.QuizTakingPage.SubmitClick | src/pages/QuizTaking.tsx:262-269 | with unanswered questions only the confirm dialog opens; with none the quiz is submitted |
| QuizTaking.QuizTakingPage.Tick | src/pages/QuizTaking.tsx:51-65 | runs only while taking with time left; at most 1 becomes 0 and auto-submits, otherwise one less |
| QuizTaking.StartingTime | src/pages/QuizTaking.tsx:150 | the attempt's remaining seconds when present and non-zero, else the duration in seconds |
| Topics.BuildTopicHierarchy | src/pages/Topics.tsx:34-58 | the two loops give the node map of every id, the root list `RootIds` and each parent's children `ChildIds` |
| Topics.RootIdsMembership | src/pages/Topics.tsx:46-53 | an id is a root iff some topic with it has no parent id, a 0 parent, or a parent not in the list |
| Topics.ChildIdsMembership | src/pages/Topics.tsx:46-50 | an id is among p's children iff a topic with it names p and p is in the list |
| Topics.RootIdsNoDuplicates | src/pages/Topics.tsx:46-53 | with distinct ids no topic is a root twice |
| Topics.ChildIdsNoDuplicates | src/pages/Topics.tsx:46-50 | with distinct ids no topic is listed twice among a parent's children |
| Topics.EveryTopicPlacedOnce | src/pages/Topics.tsx:38-55 | with distinct ids every topic is placed exactly once, as a root or under the parent it names, and no list repeats an id |
| Topics.RootIdsInOrder | src/pages/Topics.tsx:42-55 | roots keep list order: they come from increasing positions of the input |
| Topics.FilterTopics | src/pages/Topics.tsx:60-68 | an empty query keeps the list; otherwise exactly the topics whose lower-cased title or description contains the lower-cased query, in order, every copy kept as often as in the input |
| Topics.HierarchicalTopics | src/pages/Topics.tsx:70-71 | the forest is built from the filtered list |
| Topics.MatchingChildOfHiddenParentIsRoot | src/pages/Topics.tsx:70-71 | a matching subtopic whose parent does not match becomes a root |
| Availability.Classify | src/pages/Quizzes.tsx:59-86 | exactly one status, with precedence inactive, upcoming (start after now), expired (end before now), active |
| Availability.AvailableIffInWindow | src/pages/admin/QuizResultsOverview.tsx:92-101 | active status iff the quiz is active and now lies in its closed window |
| Availability.StatusMonotoneInTime | src/pages/Dashboard.tsx:109-151 | for a well-formed window the status of an active quiz never goes back as time passes |
| Availability.BoundariesAvailable | src/pages/Quizzes.tsx:68-82 | both bounds are strict: at the start and at the end instant the quiz is active |
| QuizResult.Percentage | src/pages/QuizResult.tsx:124 | 0 without points; otherwise earned*100/total rounded half up, stated as bounds |
| QuizResult.Summarize | src/pages/QuizResult.tsx:114-130 | correct + incorrect = answered = number of answers; unanswered = questions - answers, unclamped; passed iff percentage >= pass mark |
| QuizResult.UnansweredWarningIff | src/pages/QuizResult.tsx:236 | the warning shows iff there are fewer answers than questions; more answers give a negative count |
| QuizResult.CorrectCountsRightAnswers | src/pages/QuizResult.tsx:115-116 | the correct count is the number of answers marked correct |
| QuizResult.EarnedPointsSplit | src/pages/QuizResult.tsx:122 | earned points (missing = 0) add up over any split of the answers |
| QuizResult.PercentageInRange | src/pages/QuizResult.tsx:124 | earned within [0, total] gives a percentage within [0, 100] |
| QuizResult.PercentageMonotone | src/pages/QuizResult.tsx:124 | more points earned never lower the percentage |
| QuizResult.PassingIsMonotone | src/pages/QuizResult.tsx:130 | a pass stays a pass with more points earned |
| QuizResult.FullMarks | src/pages/QuizResult.tsx:124 | all the points is exactly 100 percent |
| QuizResult.TimeTakenSeconds | src/pages/QuizResult.tsx:138-140 | whole seconds between start and end, 0 without an end |
| QuizResult.SecondsParts | src/pages/QuizResult.tsx:132-136 | minutes and seconds split the seconds, the seconds in [0, 60) |
| QuizResult.FormatSecondsReadsBack | src/pages/QuizResult.tsx:132-136 | the text starts with the minutes, which parseInt reads back |
| QuizResult.SameElapsedTimeAsAdminPages | src/pages/QuizResult.tsx:132-140 | the result page prints the same time as the admin pages' formatTime for an attempt that ends after it starts |
| QuizResult.FindAnswer | src/pages/QuizResult.tsx:143-145 | None iff no answer is for the question; otherwise an answer for it |
| QuizResult.FindAnswerIsFirst | src/pages/QuizResult.tsx:143-145 | the answer found is the first one for the question |
| QuizResult.ExplanationOnlyWhenNotCorrect | src/pages/QuizResult.tsx:353 | an explanation shows iff the question was not answered correctly; an unanswered question shows it |
| AttemptStats.CompletedOnly | src/pages/admin/QuizAnalytics.tsx:54 | exactly the COMPLETED attempts, in order, every copy kept as often as in the input |
| AttemptStats.PassedCount | src/pages/admin/QuizResultsDetail.tsx:99 | the passed attempts, never more than the attempts |
| AttemptStats.MeanScoreBetween | src/pages/admin/QuizResultsDetail.tsx:95-98 | the rounded mean lies between the lowest and the highest score |
| AttemptStats.PassRate | src/pages/admin/QuizResultsDetail.tsx:99-100 | the rounded pass percentage lies in [0, 100] |
| AttemptStats.AverageMinutesNonNegative | src/pages/admin/QuizResultsDetail.tsx:102-111 | with no attempt ending before it starts the mean time is not negative |
| AttemptStats.StatisticsIgnoreOrder | src/pages/admin/QuizResultsDetail.tsx:77-109 | every statistic depends only on the multiset of attempts |
| AttemptStats.ElapsedParts | src/pages/admin/QuizResultsDetail.tsx:111-117 | minutes and seconds of a duration: for a non-negative one they split its whole seconds |
| AttemptStats.FormatElapsedReadsBack | src/pages/admin/UserResultDetail.tsx:39-45 | the text starts with the minutes, which parseInt reads back |
| QuizAnalytics.FallbackNamesRoundTrip | src/pages/admin/QuizAnalytics.tsx:62-63 | with a space, first + " " + last gives the full name back; without one the last name is empty |
| QuizAnalytics.AttemptsOf | src/pages/admin/QuizAnalytics.tsx:78 | the attempts behind the rows, in row order |
| QuizAnalytics.Rankings | src/pages/admin/QuizAnalytics.tsx:54-85 | a permutation of the completed attempts, scores non-increasing (missing = 0), row i has rank i+1, the user's first and last name (empty when missing), missing fields default to 0/false |
| QuizAnalytics.RankingsHoldCompletedAttempts | src/pages/admin/QuizAnalytics.tsx:54-58 | an attempt is ranked iff it is completed |
| QuizAnalytics.RanksAreDistinct | src/pages/admin/QuizAnalytics.tsx:77 | no two rows share a rank, even for equal scores; ranks run 1..n |
| QuizAnalytics.GetStatistics | src/pages/admin/QuizAnalytics.tsx:99-125 | zeros without attempts; otherwise the count and a pass rate in [0, 100] |
| QuizAnalytics.AverageScoreBetween | src/pages/admin/QuizAnalytics.tsx:110-111 | the average lies between the lowest and the highest ranked score |
| QuizAnalytics.TopRowHasHighestScore | src/pages/admin/QuizAnalytics.tsx:57 | the first row holds the highest completed score |
| QuizAnalytics.RankBadgeTwentyFirst | src/pages/admin/QuizAnalytics.tsx:132-137 | the badge as written reads "21th", "22th", "23th" |
| QuizAnalytics.OrdinalSuffix | src/pages/admin/QuizAnalytics.tsx:132-137 | "st" iff the last digit is 1 and the last two are not 11, "nd" and "rd" likewise for 2 and 3, "th" otherwise (always for 11 to 13) |
| QuizAnalytics.OrdinalBadgesPastTwenty | src/pages/admin/QuizAnalytics.tsx:132-137 | the corrected badge reads "21st", "22nd", "23rd", "24th" |
| QuizAnalytics.OrdinalBadgesPastHundred | src/pages/admin/QuizAnalytics.tsx:132-137 | the corrected badge reads "101st" and "111th" |
| QuizAnalytics.OrdinalRankBadge | src/pages/admin/QuizAnalytics.tsx:132-137 | agrees with the written badge for every rank up to 20 |
| QuizAnalytics.OrdinalRankBadgeReadsBack | src/pages/admin/QuizAnalytics.tsx:132-137 | the corrected badge starts with the rank, which parseInt reads back, and ends with the ordinal suffix |
| QuizResultsDetail.SortAttempts | src/pages/admin/QuizResultsDetail.tsx:52-75 | a permutation sorted by the column's key (missing score or time = 0, date = completedAt else startedAt), descending with the negated comparison |
| QuizResultsDetail.GetStatistics | src/pages/admin/QuizResultsDetail.tsx:77-109 | all zeros without attempts; otherwise lowest <= average <= highest and pass rate in [0, 100] |
| Sorting.SortByStable | src/pages/admin/QuizResultsDetail.tsx:52-75 | the ascending sort is stable: the elements of any one key keep their input order |
| Sorting.SortByDescStable | src/pages/admin/QuizResultsDetail.tsx:52-75 | the descending sort is stable too: elements with equal keys keep their input order |
| QuizResultsDetail.SortingKeepsStatistics | src/pages/admin/QuizResultsDetail.tsx:39-42 | re-sorting the table never changes the statistics cards |
| QuizResultsDetail.AllBadgesGreenIff | src/pages/admin/QuizResultsDetail.tsx:335-338 | every score badge is green iff the lowest score reaches the pass mark |
| QuizResultsDetail.ResultsDetailPage.Load | src/pages/admin/QuizResultsDetail.tsx:30-50 | the quiz and its completed attempts in server order; a failure keeps the page |
| QuizResultsDetail.ResultsDetailPage.SetSortBy | src/pages/admin/QuizResultsDetail.tsx:26-28 | the table re-sorts only when the column changes, and stays completed-only |
| QuizResultsDetail.ResultsDetailPage.SetSortOrder | src/pages/admin/QuizResultsDetail.tsx:26-28 | the table re-sorts only when the order changes |
| QuizResultsDetail.SortKeepsCompleted | src/pages/admin/QuizResultsDetail.tsx:52-75 | sorting completed attempts gives completed attempts |
| QuizResultsDetail.RowCells | src/pages/admin/QuizResultsDetail.tsx:126-134 | seven cells per attempt, one per header |
| QuizResultsDetail.Rows | src/pages/admin/QuizResultsDetail.tsx:126-134 | one row per attempt, in table order |
| QuizResultsDetail.ExportCsv | src/pages/admin/QuizResultsDetail.tsx:119-139 | no export without attempts; otherwise the header line, '\n', and one record per attempt in table order, each cell wrapped in quotes with nothing escaped |
| QuizResultsDetail.ExportCsvEscaped | src/pages/admin/QuizResultsDetail.tsx:136 | the corrected export, with quotes inside a cell doubled; none without attempts |
| QuizResultsDetail.ExportCsvReadsBack | src/pages/admin/QuizResultsDetail.tsx:125-139 | the escaped export is the header line, then a body from which a CSV reader gets back every attempt's seven cells in order |
| QuizResultsDetail.ExportsAgreeWithoutQuotes | src/pages/admin/QuizResultsDetail.tsx:136 | when no cell holds a quote, the export as written equals the escaped one |
| Csv.RowAsWrittenIsAmbiguous | src/pages/admin/QuizResultsDetail.tsx:136 | quoting without escaping maps two different rows to the same text |
| Csv.Escape | src/pages/admin/QuizResultsDetail.tsx:136 | a cell without a quote is left as it is |
| Csv.QuotedCells | src/pages/admin/QuizResultsDetail.tsx:136 | each cell escaped and wrapped in quotes, in order |
| Csv.EncodedRows | src/pages/admin/QuizResultsDetail.tsx:134-137 | one encoded record per row, in order |
| Csv.EncodeRowAgreesWithoutQuotes | src/pages/admin/QuizResultsDetail.tsx:136 | where no cell holds a quote, the escaping encoding writes exactly what the export writes |
| Csv.RowsAsWritten | src/pages/admin/QuizResultsDetail.tsx:136 | one unescaped record per row, in order |
| Csv.EncodedRowsAgreeWithoutQuotes | src/pages/admin/QuizResultsDetail.tsx:136 | where no cell of any row holds a quote, every escaped record is the record as written |
| Csv.ParseEncodedRows | src/pages/admin/QuizResultsDetail.tsx:134-137 | reading the encoded records gives back every record and cell |
| QuizResultsOverview.StatsOf | src/pages/admin/QuizResultsOverview.tsx:42-58 | total = completed count, pass + fail = total, all zeros without completed attempts, pass rate in [0, 100] |
| QuizResultsOverview.StatsMapEntries | src/pages/admin/QuizResultsOverview.tsx:39-60 | after the loop the map has one entry per quiz id and no other, each the stats of that quiz's attempts |
| QuizResultsOverview.StatsMapSnoc | src/pages/admin/QuizResultsOverview.tsx:52 | each iteration sets the quiz's entry, overwriting one for the same id |
| QuizResultsOverview.DisplayStats | src/pages/admin/QuizResultsOverview.tsx:192-196 | a quiz without an entry shows zeros |
| QuizResultsOverview.ViewResultsDisabledIff | src/pages/admin/QuizResultsOverview.tsx:260 | the button is disabled iff the quiz has no completed attempt |
| QuizResultsOverview.PassRateBadgeMonotone | src/pages/admin/QuizResultsOverview.tsx:244-252 | green from 75, red below 50, and a higher rate never gets a worse colour |
| QuizResultsOverview.FilterOverview | src/pages/admin/QuizResultsOverview.tsx:69-90 | an empty query and 'all' keep the list; every quiz that matches the query and has the chosen status is kept as often as in the input, every other one dropped |
| QuizResultsOverview.FilterOverviewAgreesWithQuizList | src/pages/admin/QuizResultsOverview.tsx:74-79 | the overview filter equals the learners' quiz filter |
| QuizResultsOverview.FilterOverviewKeeps | src/pages/admin/QuizResultsOverview.tsx:69-90 | exactly the matching quizzes with the chosen status, in order |
| QuizResultsOverview.GatherStats | src/pages/admin/QuizResultsOverview.tsx:40-59 | the loop fills the map as `StatsMap` when every request succeeds, and stops at the first failure |
| QuizResultsOverview.ResultsOverviewPage.LoadQuizzes | src/pages/admin/QuizResultsOverview.tsx:30-67 | the list is set when it arrives; the map is replaced only when all stats load |
| QuizResultsOverview.ResultsOverviewPage.ApplyFilter | src/pages/admin/QuizResultsOverview.tsx:69-90 | the rows shown are the filter of the list |
| Dashboard.RecentTopics | src/pages/Dashboard.tsx:43-46 | exactly the topics created strictly after now minus seven days, in order, every copy kept as often as in the input |
| Dashboard.RelevantQuizzes | src/pages/Dashboard.tsx:49-57 | the quizzes not ended, sorted by start time (missing = now) |
| Dashboard.RelevantQuizzesMembership | src/pages/Dashboard.tsx:49-52 | a quiz is listed iff it has not ended; no listed quiz is expired, every available quiz is listed |
| Dashboard.RecentAttempts | src/pages/Dashboard.tsx:68-75 | at most five, latest completion first (missing = 0), drawn from the completed attempts |
| Dashboard.RecentAttemptsAreLatest | src/pages/Dashboard.tsx:68-75 | an attempt left out was completed no later than every listed one, and only when there are more than five |
| Dashboard.StatsAfterLoad | src/pages/Dashboard.tsx:77-101 | topic and quiz totals always; completed and passed are 0 without a user or attempts, and passed <= completed |
| Dashboard.DisplayedPassRateInRange | src/pages/Dashboard.tsx:225-227 | the displayed pass rate lies in [0, 100] |
| Dashboard.DashboardPage.LoadDashboard | src/pages/Dashboard.tsx:34-107 | a failed list load leaves the page; otherwise the recent topics, relevant quizzes, recent attempts and cards as above |
| Quizzes.StatusLabelNamesStatus | src/pages/Quizzes.tsx:59-86 | different statuses have different labels |
| Quizzes.SearchQuizzes | src/pages/Quizzes.tsx:90-99 | an empty query keeps the list; otherwise the title, or a present description or topic title, contains the query, in order, every copy kept as often as in the input |
| Quizzes.WithStatus | src/pages/Quizzes.tsx:100-105 | exactly the quizzes with that status, in order, every copy kept as often as in the input |
| Quizzes.FilterQuizzes | src/pages/Quizzes.tsx:88-108 | search then status; an empty query and no status keep the list; exactly the matching quizzes with the chosen status, each copy as often as in the input, in order |
| Quizzes.InactiveNeverInTimeTabs | src/pages/Quizzes.tsx:291-331 | an inactive quiz never shows under Active, Upcoming or Past |
| Quizzes.ActiveQuizInOneTimeTab | src/pages/Quizzes.tsx:291-331 | an active matching quiz shows under exactly one time tab |
| Quizzes.TimeTabsWithinAll | src/pages/Quizzes.tsx:291-331 | every quiz under a time tab is under All |
| Quizzes.CardScore | src/pages/Quizzes.tsx:112 | the score, or 0 when missing |
| Quizzes.QuizzesPage.LoadQuizzes | src/pages/Quizzes.tsx:28-40 | the server's list, or the old one on failure |
| Quizzes.QuizzesPage.LoadCompletedAttempts | src/pages/Quizzes.tsx:42-57 | only the completed attempts, and only with a user |
| Quizzes.QuizzesPage.SelectTab | src/pages/Quizzes.tsx:264-268 | the results load only on "My Results" while the list is empty |
| UserResultDetail.UserAnswersOf | src/pages/admin/UserResultDetail.tsx:57 | an absent list is empty |
| UserResultDetail.AnswerCounts | src/pages/admin/UserResultDetail.tsx:58-59 | correct + incorrect = total, both non-negative |
| UserResultDetail.IncorrectCountsWrongAnswers | src/pages/admin/UserResultDetail.tsx:154 | the incorrect count is the number of answers not marked correct |
| UserResultDetail.QuestionLabels | src/pages/admin/UserResultDetail.tsx:200-215 | entries without a question render nothing; the others keep their position number, increasing |
| UserResultDetail.EntryShownIffQuestion | src/pages/admin/UserResultDetail.tsx:200-201 | an entry is shown iff it has a question |
| UserResultDetail.OptionHighlightCases | src/pages/admin/UserResultDetail.tsx:244-253 | green iff correct; red iff chosen and wrong; neutral otherwise |
| UserResultDetail.UserBadgeExactlyOne | src/pages/admin/UserResultDetail.tsx:271-288 | a chosen option carries exactly one user badge, matching its correctness; "Correct Answer" marks exactly the correct options |
| QuizEdit.HasChangesIff | src/pages/moderator/QuizEdit.tsx:59-74 | there are unsaved changes iff the nine fields differ from the form loaded from the quiz; the topic is not compared |
| QuizEdit.CancelActionOf | src/pages/moderator/QuizEdit.tsx:175-181 | cancel asks for confirmation iff there are changes |
| QuizEdit.CheckSave | src/pages/moderator/QuizEdit.tsx:128-146 | blank title first, then a duration of 0 or less, then a start not before the end when both are set; saved iff none applies |
| QuizEdit.UpdatePayloadKeepsForm | src/pages/moderator/QuizEdit.tsx:150-160 | the update request carries all nine settings: the form can be read back from it |
| QuizEdit.FilterQuestions | src/pages/moderator/QuizEdit.tsx:114-126 | exactly the available questions whose id is not selected and, for a non-empty query, whose lower-cased text contains it, in order, every copy kept as often as in the input |
| QuizEdit.Swap | src/pages/moderator/QuizEdit.tsx:208 | positions i and j exchanged, every other position unchanged |
| QuizEdit.SwapIsPermutation | src/pages/moderator/QuizEdit.tsx:205-217 | a move keeps the same questions, each as often |
| QuizEdit.MoveUpThenDownRestores | src/pages/moderator/QuizEdit.tsx:205-217 | moving up at i and down at i-1 gives the list back |
| QuizEdit.QuizEditPage.AddQuestion | src/pages/moderator/QuizEdit.tsx:188-190 | the question is appended at the end |
| QuizEdit.QuizEditPage.RemoveQuestion | src/pages/moderator/QuizEdit.tsx:192-195 | the question is pending and the confirmation open |
| QuizEdit.QuizEditPage.ConfirmDeleteQuestion | src/pages/moderator/QuizEdit.tsx:197-203 | every question with the pending id leaves, the rest keep their order; nothing pending and the dialog closed |
| QuizEdit.QuizEditPage.MoveQuestionUp | src/pages/moderator/QuizEdit.tsx:205-210 | no change at index 0; otherwise positions i-1 and i exchanged |
| QuizEdit.QuizEditPage.MoveQuestionDown | src/pages/moderator/QuizEdit.tsx:212-217 | no change at the last index; otherwise positions i and i+1 exchanged |
| QuestionForm.AnswerChange | src/pages/moderator/QuizQuestions.tsx:113-117 | only row i's text changes; its id and mark and every other row stay |
| QuestionForm.AnswerChangeUndone | src/pages/moderator/QuestionManagement.tsx:92-96 | typing the old text back restores the rows |
| QuestionForm.CorrectAnswerChange | src/pages/moderator/QuizQuestions.tsx:119-125 | row j is marked iff j = i; texts and ids unchanged |
| QuestionForm.CountMarkedOnlyAt | src/pages/moderator/QuestionManagement.tsx:98-104 | with only row i marked, one row is marked when i is a row and none otherwise |
| QuestionForm.ExactlyOneCorrect | src/pages/moderator/QuestionManagement.tsx:98-104 | after choosing a row exactly one row is marked correct |
| QuestionForm.CorrectAnswerChangeIdempotent | src/pages/moderator/QuizQuestions.tsx:113-125 | choosing twice is choosing once, and text edits and the choice commute |
| QuestionForm.PointsInput | src/pages/moderator/QuizQuestions.tsx:305 | the number typed when it is not 0; 1 for 0 or for text that is not a number |
| QuestionForm.PointsInputReadsNumber | src/pages/moderator/QuestionManagement.tsx:247 | a typed non-zero number reads back as itself; 0 gives 1 |
| QuestionForm.CheckSubmit | src/pages/moderator/QuestionManagement.tsx:109-122 | blank question first, then a blank answer, then no answer marked; accepted iff none applies |
| QuestionForm.BlankFormRefused | src/pages/moderator/QuizQuestions.tsx:38-48 | the new form is refused for its question, and once that is typed for its blank rows |
| QuestionForm.ChoosingCorrectAnswerCompletes | src/pages/moderator/QuizQuestions.tsx:130-143 | a filled-in form passes once a row is chosen as correct |
| QuestionForm.AnswerPayloads | src/pages/moderator/QuizQuestions.tsx:180-184 | one payload per row, with its text and mark and the row number as display order |
| QuestionForm.AnswerPayloadsReadBack | src/pages/moderator/QuestionManagement.tsx:133-137 | the rows' texts and marks read back from the payload, numbered 0, 1, ... |
| QuestionManagement.EditForm | src/pages/moderator/QuestionManagement.tsx:78-90 | text, points, explanation or "", and one row per answer with its text and mark, unsorted and without ids |
| QuestionManagement.EditWithoutAnswersCannotSave | src/pages/moderator/QuestionManagement.tsx:84-87 | a question without answers opens with no rows and can never be saved |
| QuestionManagement.PayloadReadsBack | src/pages/moderator/QuestionManagement.tsx:129-153 | the payload carries the whole form: a form without ids reads back from it |
| QuestionManagement.UnchangedEditRenumbers | src/pages/moderator/QuestionManagement.tsx:78-90 | an edit saved unchanged sends the answers in their order, renumbered 0, 1, ... |
| QuestionManagement.SaveRequest | src/pages/moderator/QuestionManagement.tsx:127-157 | an update of the edited question iff one is edited, else a creation, with the same payload |
| QuestionManagement.QuestionManagementPage.LoadData | src/pages/moderator/QuestionManagement.tsx:49-60 | the list becomes the server's questions; a failed request keeps it |
| QuestionManagement.QuestionManagementPage.OpenDialog | src/pages/moderator/QuestionManagement.tsx:62-76 | the blank form, nothing edited, the dialog open |
| QuestionManagement.QuestionManagementPage.EditQuestion | src/pages/moderator/QuestionManagement.tsx:78-90 | the question's form, the question edited, the dialog open |
| QuestionManagement.QuestionManagementPage.ChangeAnswer | src/pages/moderator/QuestionManagement.tsx:92-96 | the rows change as AnswerChange says |
| QuestionManagement.QuestionManagementPage.ChangeCorrectAnswer | src/pages/moderator/QuestionManagement.tsx:98-104 | the rows change as CorrectAnswerChange says |
| QuestionManagement.QuestionManagementPage.ChangePoints | src/pages/moderator/QuestionManagement.tsx:247 | the points become the input's reading |
| QuestionManagement.QuestionManagementPage.Submit | src/pages/moderator/QuestionManagement.tsx:106-168 | a request iff the checks pass; on success the dialog closes, nothing is edited and the list is reloaded, otherwise all three stay |
| QuestionManagement.QuestionManagementPage.AskDelete | src/pages/moderator/QuestionManagement.tsx:381 | the question is pending deletion |
| QuestionManagement.QuestionManagementPage.ConfirmDelete | src/pages/moderator/QuestionManagement.tsx:170-182 | nothing without a non-zero pending id; otherwise its deletion is sent, and on success the pending id is cleared and the list reloaded |
| QuizQuestions.FieldsOf | src/pages/moderator/QuizQuestions.tsx:98-102 | one row per answer, keeping its id |
| QuizQuestions.EditForm | src/pages/moderator/QuizQuestions.tsx:91-111 | text, points, explanation or ""; four blank rows without answers, else the answers sorted by display order |
| QuizQuestions.EditFormSortsAnswers | src/pages/moderator/QuizQuestions.tsx:97-102 | the rows are the answers, each once, in ascending display order |
| QuizQuestions.CreateRequest | src/pages/moderator/QuizQuestions.tsx:174-186 | the new question goes after the listed ones, active, its answers numbered by row, no explanation when empty |
| QuizQuestions.AnswerUpdates | src/pages/moderator/QuizQuestions.tsx:158-169 | at most one update per row |
| QuizQuestions.AnswerUpdatesSound | src/pages/moderator/QuizQuestions.tsx:158-169 | the updates are for rows with an id, carry that row's id, text and mark, follow row order, and each is numbered by its row |
| QuizQuestions.AnswerUpdatesStep | src/pages/moderator/QuizQuestions.tsx:159-168 | one more row adds its update, if it has an id, after the earlier rows' updates |
| QuizQuestions.AnswerUpdatesComplete | src/pages/moderator/QuizQuestions.tsx:161-167 | every row with an id is updated with its id, text, mark and row number |
| QuizQuestions.AnswerUpdatesPrefix | src/pages/moderator/QuizQuestions.tsx:159-169 | the updates of the first rows are a prefix of all the updates |
| QuizQuestions.NoIdsNoUpdates | src/pages/moderator/QuizQuestions.tsx:161 | rows without ids send nothing |
| QuizQuestions.BlankRowsOfEditNotSent | src/pages/moderator/QuizQuestions.tsx:103-108 | what is typed into the blank rows of a question loaded without answers is never sent |
| QuizQuestions.SendAnswerUpdates | src/pages/moderator/QuizQuestions.tsx:159-169 | the loop sends all the updates when none is refused; otherwise it stops at the first refused one, a prefix |
| QuizQuestions.SendEdit | src/pages/moderator/QuizQuestions.tsx:150-170 | the question update first, then the answer updates, stopping at the first refusal |
| QuizQuestions.SubmitRequests | src/pages/moderator/QuizQuestions.tsx:127-190 | nothing for a failed check or no quiz; otherwise the creation or the edit's requests; saved iff all were accepted |
| QuizQuestions.Stored | src/pages/moderator/QuizQuestions.tsx:180-184 | the server's answers for the payloads, in order |
| QuizQuestions.StoredInOrder | src/pages/moderator/QuizQuestions.tsx:98 | a created question's answers are already sorted by display order |
| QuizQuestions.WithIds | src/pages/moderator/QuizQuestions.tsx:99 | the form's rows with the server's ids |
| QuizQuestions.CreatedQuestionReloads | src/pages/moderator/QuizQuestions.tsx:91-111 | a created question opened for editing shows the same rows in the same order, now with ids |
| QuizQuestions.QuizQuestionsPage.OpenDialog | src/pages/moderator/QuizQuestions.tsx:75-89 | the blank form, nothing edited, the dialog open |
| QuizQuestions.QuizQuestionsPage.EditQuestion | src/pages/moderator/QuizQuestions.tsx:91-111 | the question's form, the question edited, the dialog open |
| QuizQuestions.QuizQuestionsPage.ChangeAnswer | src/pages/moderator/QuizQuestions.tsx:113-117 | the rows change as AnswerChange says |
| QuizQuestions.QuizQuestionsPage.ChangeCorrectAnswer | src/pages/moderator/QuizQuestions.tsx:119-125 | the rows change as CorrectAnswerChange says |
| QuizQuestions.QuizQuestionsPage.ChangePoints | src/pages/moderator/QuizQuestions.tsx:305 | the points become the input's reading |
| QuizQuestions.QuizQuestionsPage.Submit | src/pages/moderator/QuizQuestions.tsx:127-200 | the requests SubmitRequests describes; on success the dialog closes and nothing is edited, otherwise both stay |
| QuizManagement.DialogDefaults | src/pages/moderator/QuizManagement.tsx:99-119 | 30 minutes, pass mark 70, no shuffling, results shown, active, topic 0, start tomorrow and end in a week |
| QuizManagement.DefaultsNeedTopic | src/pages/moderator/QuizManagement.tsx:124-127 | the opened dialog is refused as it is, and accepted once title, description and topic are set |
| QuizManagement.QuestionsPath | src/pages/moderator/QuizManagement.tsx:131-134 | the questions page of the new quiz |
| QuizManagement.QuestionsPathInjective | src/pages/moderator/QuizManagement.tsx:131-134 | different quizzes lead to different pages |
| QuizManagement.SearchStep | src/pages/moderator/QuizManagement.tsx:178-186 | skipped for a blank query; otherwise the quizzes matching the untrimmed lower-cased query, in order, every copy kept as often as in the input |
| QuizManagement.TopicStep | src/pages/moderator/QuizManagement.tsx:189-191 | the quizzes whose topic id, written out, is the value, unless "all", each copy as often as in the input, in order |
| QuizManagement.StatusStep | src/pages/moderator/QuizManagement.tsx:194-200 | active or inactive quizzes, each copy as often as in the input, in order; any other value filters nothing |
| QuizManagement.FilterQuizzes | src/pages/moderator/QuizManagement.tsx:174-203 | in order, exactly the quizzes that pass the search, the topic and the status filter, each copy as often as in the input |
| QuizManagement.TopicFilterKeepsTopic | src/pages/moderator/QuizManagement.tsx:189-191 | choosing a topic keeps exactly that topic's quizzes among those the other filters keep |
| QuizManagement.NoSummaryListsAll | src/pages/moderator/QuizManagement.tsx:436 | without the summary bar every quiz is listed |
| QuizManagement.BlankQueryShowsSummaryOnly | src/pages/moderator/QuizManagement.tsx:178 | a query of spaces shows the summary bar but filters nothing |
| QuizManagement.ToggleRequestOf | src/pages/moderator/QuizManagement.tsx:158-172 | deactivate iff the quiz is active, for that quiz |
| QuizManagement.QuizManagementPage.LoadData | src/pages/moderator/QuizManagement.tsx:82-97 | the server's list, or the old one on failure |
| QuizManagement.QuizManagementPage.OpenDialog | src/pages/moderator/QuizManagement.tsx:99-119 | the default form and the dialog open |
| QuizManagement.QuizManagementPage.Submit | src/pages/moderator/QuizManagement.tsx:121-142 | nothing sent with a field missing; after a creation the dialog closes, the list reloads and the page moves to the quiz's questions |
| QuizManagement.QuizManagementPage.AskDelete | src/pages/moderator/QuizManagement.tsx:60 | the quiz is pending deletion |
| QuizManagement.QuizManagementPage.Delete | src/pages/moderator/QuizManagement.tsx:144-156 | nothing without a non-zero pending id; otherwise its deletion, and on success the id cleared and the list reloaded |
| QuizManagement.QuizManagementPage.ToggleActive | src/pages/moderator/QuizManagement.tsx:158-172 | the matching request, then a reload on success |
| QuizManagement.QuizManagementPage.ClearFilters | src/pages/moderator/QuizManagement.tsx:436 | the summary bar hides and every quiz is listed |
| ResourceManagement.FilteredResources | src/pages/moderator/ResourceManagement.tsx:181-193 | listed iff search, topic, type and status all hold, in order, every copy kept as often as in the input |
| ResourceManagement.DefaultFiltersListAll | src/pages/moderator/ResourceManagement.tsx:182-190 | every filter at its default lists every resource |
| ResourceManagement.NoTopicOnlyUnderAll | src/pages/moderator/ResourceManagement.tsx:186 | a resource without a topic shows only under "all" |
| ResourceManagement.TopicFilterKeepsTopic | src/pages/moderator/ResourceManagement.tsx:186 | choosing a topic keeps exactly that topic's resources among the others' |
| ResourceManagement.StatusFiltersPartition | src/pages/moderator/ResourceManagement.tsx:188-190 | each listed resource is under exactly one of "active" and "inactive" |
| ResourceManagement.ResourceIcon | src/pages/moderator/ResourceManagement.tsx:153-165 | the link icon iff a link, the video icon iff a video, the file icon otherwise |
| ResourceManagement.IconsAndColours | src/pages/moderator/ResourceManagement.tsx:153-179 | PDF and DOCUMENT look alike; other known types look different; unknown types are grey with the file icon |
| ResourceManagement.FormOf | src/pages/moderator/ResourceManagement.tsx:63-76 | the resource's fields, a missing topic read as 0 |
| ResourceManagement.EditedResourceSavable | src/pages/moderator/ResourceManagement.tsx:93-95 | a resource opened for editing saves unchanged iff it has a title, a url and a topic |
| ResourceManagement.DisplayOrderInput | src/pages/moderator/ResourceManagement.tsx:313 | the number typed, or 0 |
| ResourceManagement.DisplayOrderReadsBack | src/pages/moderator/ResourceManagement.tsx:313 | a typed number reads back as itself |
| ResourceManagement.ResourceManagementPage.LoadData | src/pages/moderator/ResourceManagement.tsx:46-61 | the server's list, or the old one on failure |
| ResourceManagement.ResourceManagementPage.OpenDialog | src/pages/moderator/ResourceManagement.tsx:63-88 | the resource's form for an edit, the blank form otherwise, the dialog open |
| ResourceManagement.ResourceManagementPage.ChangeDisplayOrder | src/pages/moderator/ResourceManagement.tsx:313 | the order becomes the input's reading |
| ResourceManagement.ResourceManagementPage.Submit | src/pages/moderator/ResourceManagement.tsx:90-117 | nothing sent with a field missing; an update iff a resource is edited, else a creation; on success the dialog closes and the list reloads |
| TopicManagement.RootTopics | src/pages/moderator/TopicManagement.tsx:109 | exactly the topics without a non-zero parent, in order, every copy kept as often as in the input |
| TopicManagement.RootTopicsIdempotent | src/pages/moderator/TopicManagement.tsx:109 | the roots of the roots are the roots |
| TopicManagement.FormOf | src/pages/moderator/TopicManagement.tsx:47-57 | the topic's title, description and parent |
| TopicManagement.SelectParent | src/pages/moderator/TopicManagement.tsx:167-171 | "none" means no parent, any other value its parseInt |
| TopicManagement.SelectRoundTrip | src/pages/moderator/TopicManagement.tsx:166-171 | choosing the option shown for a parent gives that parent back |
| TopicManagement.TopicManagementPage.ParentChoices | src/pages/moderator/TopicManagement.tsx:109 | only root topics are offered as parents |
| TopicManagement.TopicManagementPage.LoadTopics | src/pages/moderator/TopicManagement.tsx:34-45 | the server's list, or the old one on failure |
| TopicManagement.TopicManagementPage.OpenDialog | src/pages/moderator/TopicManagement.tsx:47-64 | the topic's form for an edit, the blank form and nothing edited otherwise |
| TopicManagement.TopicManagementPage.ChangeParent | src/pages/moderator/TopicManagement.tsx:167-171 | the parent becomes the select's reading |
| TopicManagement.TopicManagementPage.Submit | src/pages/moderator/TopicManagement.tsx:66-93 | nothing sent without title and description; an update iff a topic is edited, else a creation; on success the dialog closes and the list reloads |
| AdminUserManagement.RoleNameInjective | src/pages/admin/UserManagement.tsx:560-562 | different roles have different names |
| AdminUserManagement.LoadPath | src/pages/admin/UserManagement.tsx:368-388 | /api/users/active, /api/users/inactive, or /api/users |
| AdminUserManagement.SearchRequestPath | src/pages/admin/UserManagement.tsx:390-399 | a blank query reloads; any other searches |
| AdminUserManagement.SearchActiveOnlyIff | src/pages/admin/UserManagement.tsx:398-399 | the search asks for active users only iff the status filter is "active" |
| AdminUserManagement.FilterUsers | src/pages/admin/UserManagement.tsx:557-565 | the input for "all"; otherwise exactly the users with that role, in order, every copy kept as often as in the input |
| AdminUserManagement.FilterByRole | src/pages/admin/UserManagement.tsx:557-565 | choosing a role keeps exactly its users |
| AdminUserManagement.RolesPartitionUsers | src/pages/admin/UserManagement.tsx:557-565 | the four role lists together hold every user once |
| AdminUserManagement.EditedUserSavable | src/pages/admin/UserManagement.tsx:412-437 | an opened user saves unchanged iff e-mail and both names are set; the edit form never passes the create check |
| AdminUserManagement.TogglePathIff | src/pages/admin/UserManagement.tsx:463-467 | the endpoint deactivates iff the user is active |
| AdminUserManagement.CheckReset | src/pages/admin/UserManagement.tsx:483-491 | a mismatch first, then fewer than 6 characters; accepted iff neither |
| AdminUserManagement.ErrorToast | src/pages/admin/UserManagement.tsx:427 | the server's message when present, else the fallback |
| AdminUserManagement.AdminUserManagementPage.LoadUsers | src/pages/admin/UserManagement.tsx:368-388 | the endpoint for the status filter; a failure keeps the list |
| AdminUserManagement.AdminUserManagementPage.ChangeStatusFilter | src/pages/admin/UserManagement.tsx:364-366 | the filter takes the value; a reload from the matching endpoint iff the value changed |
| AdminUserManagement.AdminUserManagementPage.Search | src/pages/admin/UserManagement.tsx:390-407 | the search request, or a reload for a blank query |
| AdminUserManagement.AdminUserManagementPage.ResetForm | src/pages/admin/UserManagement.tsx:529-540 | empty fields, role USER, no selected user |
| AdminUserManagement.AdminUserManagementPage.OpenEditModal | src/pages/admin/UserManagement.tsx:511-522 | the user selected, its fields in the form, the dialog open |
| AdminUserManagement.AdminUserManagementPage.OpenResetPasswordModal | src/pages/admin/UserManagement.tsx:524-527 | the user selected, the dialog open |
| AdminUserManagement.AdminUserManagementPage.CreateUserSubmit | src/pages/admin/UserManagement.tsx:409-432 | nothing sent with a required field missing; on success closed, reset and reloaded; on failure the server's words or the fallback |
| AdminUserManagement.AdminUserManagementPage.UpdateUserSubmit | src/pages/admin/UserManagement.tsx:434-461 | nothing sent without a selection and the three fields; only e-mail, names and role are sent |
| AdminUserManagement.AdminUserManagementPage.ToggleActive | src/pages/admin/UserManagement.tsx:463-476 | the flip request, then a reload on success |
| AdminUserManagement.AdminUserManagementPage.ResetPasswordSubmit | src/pages/admin/UserManagement.tsx:478-509 | no check and no request without a selected user; otherwise both checks before any request; on success the dialog closes and passwords and selection clear |
| Login.ServerMessage | src/pages/Login.tsx:177 | data.message, else data.error |
| Login.OrElse | src/pages/Login.tsx:182-188 | the message, or the fallback when it is empty |
| Login.LoginErrorMessage | src/pages/Login.tsx:174-196 | 401, 403, 429 and 500 and above as listed; other statuses the server's words or the generic text; no response the connection text; anything else the unexpected-error text |
| Login.ServerMessageShownOnlyFor | src/pages/Login.tsx:179-186 | 401, 429 and server errors read the same whatever the server said |
| Login.ForbiddenShowsServerWords | src/pages/Login.tsx:181-182 | a 403 shows message, else error, else the fixed text |
| Login.GuestLoginErrorMessage | src/pages/Login.tsx:209-215 | "Guest account not available" iff the status is 401 |
| Login.LoginPage.BeginSubmit | src/pages/Login.tsx:159-167 | an empty field gives an error and no attempt; otherwise loading and the credentials go out |
| Login.LoginPage.FinishSubmit | src/pages/Login.tsx:168-200 | loading cleared in every outcome; the dashboard or the failure's message |
| Login.LoginPage.Submit | src/pages/Login.tsx:159-201 | the whole handler: attempted iff both fields are filled, loading false after any attempt |
| Login.LoginPage.GuestLogin | src/pages/Login.tsx:203-218 | signs in as guest/guest; loading cleared; the dashboard or the guest failure message |
| NotificationBell.UnreadCount | src/components/NotificationBell.tsx:81 | at most the number of notifications |
| NotificationBell.UnreadZeroIff | src/components/NotificationBell.tsx:81-88 | no unread notification iff all are read |
| NotificationBell.MarkRead | src/components/NotificationBell.tsx:44-46 | the matching notifications become read, the others stay |
| NotificationBell.MarkReadIdempotent | src/components/NotificationBell.tsx:44-46 | marking twice is marking once |
| NotificationBell.MarkReadCount | src/components/NotificationBell.tsx:44-46 | the unread count drops by the unread notifications with that id |
| NotificationBell.BadgeLabel | src/components/NotificationBell.tsx:88-95 | hidden at 0, the count up to 9, "9+" above |
| NotificationBell.BadgeLabelShort | src/components/NotificationBell.tsx:93 | one or two characters; up to 9 the count reads back |
| NotificationBell.ClickTarget | src/components/NotificationBell.tsx:57-63 | /topics/id, /quiz/id or /dashboard as type and related id say |
| NotificationBell.ClickTargetNamesRelated | src/components/NotificationBell.tsx:57-60 | the related id reads back from the page a click leads to |
| NotificationBell.NotificationBellState.Load | src/components/NotificationBell.tsx:21-39 | a request only with a user and the popover open; a failure keeps the list |
| NotificationBell.NotificationBellState.MarkAsRead | src/components/NotificationBell.tsx:41-50 | the list changes only on success, and the unread count never rises |
| NotificationBell.NotificationBellState.Click | src/components/NotificationBell.tsx:52-64 | marks it read, closes the popover, goes to its page |
| Layout.VisibleAmong | src/components/Layout.tsx:38-40 | exactly the entries whose roles include the role, in order |
| Layout.VisibleNavItems | src/components/Layout.tsx:38-40 | none without a user; otherwise the entries for the user's role, in order |
| Layout.AdminSeesAll | src/components/Layout.tsx:25-36 | ADMIN sees all ten entries |
| Layout.ModeratorSees | src/components/Layout.tsx:25-36 | MODERATOR sees eight: all but the two admin-only entries |
| Layout.LearnersSeeThreeEntries | src/components/Layout.tsx:25-36 | USER and GUEST see the first three |
| Layout.LearningVisible | src/components/Layout.tsx:26-28 | every role sees the three learning entries |
| Layout.StaffItemsVisible | src/components/Layout.tsx:29-35 | exactly ADMIN and MODERATOR see the management entries and the results entry |
| Layout.AdminItemsVisible | src/components/Layout.tsx:33-34 | only ADMIN sees the user-management and analytics entries |
| Layout.UserSees | src/components/Layout.tsx:25-40 | USER sees the three learning entries |
| Layout.GuestSees | src/components/Layout.tsx:25-40 | GUEST sees the three learning entries |
| Layout.PathsDistinct | src/components/Layout.tsx:25-36 | no two entries share a path |
| Layout.AtMostOneActive | src/components/Layout.tsx:42 | at most one visible entry is highlighted |
| Layout.MobileNavItems | src/components/Layout.tsx:154 | the first min(4, n) visible entries |
| Layout.MobileLabel | src/components/Layout.tsx:166 | the label up to its first space, which with the rest rebuilds the label |
| UserDirectory.FilteredUsers | src/components/UserManagement.tsx:146-153 | exactly the users passing search, role and status, in order, every copy kept as often as in the input |
| UserDirectory.NoFilterListsAll | src/components/UserManagement.tsx:147-152 | an empty search and "all" twice list every user |
| UserDirectory.LongerQueryNarrows | src/components/UserManagement.tsx:147-148 | a longer query never shows a user the shorter one hid |
| UserDirectory.FindById | src/components/UserManagement.tsx:134 | None iff no user has the id; otherwise the first with it |
| UserDirectory.WithoutId | src/components/UserManagement.tsx:135 | exactly the users without the id, in order, every copy kept as often as in the input |
| UserDirectory.DeleteCount | src/components/UserManagement.tsx:135 | the list shrinks by the users with the id |
| UserDirectory.DeleteAbsentOrTwice | src/components/UserManagement.tsx:133-139 | deleting an absent id changes nothing; deleting twice is deleting once |
| UserDirectory.UserDirectoryPage.constructor | src/components/UserManagement.tsx:102-106 | the eight mock users, no search, "all" filters, dialog closed |
| UserDirectory.UserDirectoryPage.Shown | src/components/UserManagement.tsx:146-153 | only users of the list, never more |
| UserDirectory.UserDirectoryPage.ShownCount | src/components/UserManagement.tsx:177 | the heading count is at most the list's length |
| UserDirectory.UserDirectoryPage.OpenAddModal | src/components/UserManagement.tsx:108-110 | the dialog opens |
| UserDirectory.UserDirectoryPage.CloseModal | src/components/UserManagement.tsx:112-114 | the dialog closes |
| UserDirectory.UserDirectoryPage.Search | src/components/UserManagement.tsx:141-143 | the query is set |
| UserDirectory.UserDirectoryPage.ChangeRoleFilter | src/components/UserManagement.tsx:195 | the role filter is set |
| UserDirectory.UserDirectoryPage.ChangeStatusFilter | src/components/UserManagement.tsx:207 | the status filter is set |
| UserDirectory.UserDirectoryPage.AddUser | src/components/UserManagement.tsx:116-119 | the user goes to the top; the table gains it at the top when it passes the filters |
| UserDirectory.UserDirectoryPage.DeleteUser | src/components/UserManagement.tsx:133-139 | every user with the id leaves; the confirmation iff one existed, naming the first |
| AddUserModal.WithField | src/components/AddUserModal.tsx:35-40 | the named field set, the others unchanged |
| AddUserModal.FormByFields | src/components/AddUserModal.tsx:27-33 | a form is its five fields |
| AddUserModal.WithFieldRestores | src/components/AddUserModal.tsx:35-40 | typing the old value back restores the form |
| AddUserModal.NewUser | src/components/AddUserModal.tsx:45-49 | the form's fields, the given id and lastLogin "Never" |
| AddUserModal.NewUserListed | src/components/AddUserModal.tsx:27-33 | a new user with the default status passes the directory's filters for its role |
| AddUserModal.AddUserModalState.constructor | src/components/AddUserModal.tsx:27-33 | empty fields and status Active |
| AddUserModal.AddUserModalState.InputChange | src/components/AddUserModal.tsx:35-40 | only the named field changes |
| AddUserModal.AddUserModalState.Submit | src/components/AddUserModal.tsx:42-60 | a user iff name, e-mail and role are filled; then the form resets and the dialog closes |
| AddUserModal.AddUserModalState.Cancel | src/components/AddUserModal.tsx:62-71 | reset and close without adding |
| AddUserModal.SubmitToDirectory | src/components/AddUserModal.tsx:42-60 | a valid submit puts the user at the top of the directory and closes; otherwise the page is untouched |
| PaymentManagement.FilteredTransactions | src/components/PaymentManagement.tsx:125-135 | exactly the transactions passing search, status and type, in order, every copy kept as often as in the input |
| PaymentManagement.Search | src/components/PaymentManagement.tsx:108-110 | the query set, the rest unchanged |
| PaymentManagement.SetStatusFilter | src/components/PaymentManagement.tsx:221 | the status set, the rest unchanged |
| PaymentManagement.SetTypeFilter | src/components/PaymentManagement.tsx:233 | the type set, the rest unchanged |
| PaymentManagement.SetTermFilter | src/components/PaymentManagement.tsx:247 | the term set, the rest unchanged |
| PaymentManagement.TransactionsNeverChange | src/components/PaymentManagement.tsx:94 | no sequence of control changes alters the list |
| PaymentManagement.TermFilterIgnored | src/components/PaymentManagement.tsx:125-135 | the term select never changes the table |
| PaymentManagement.InitialViewListsAll | src/components/PaymentManagement.tsx:30-98 | at the start every mock transaction is listed |
| PaymentManagement.TypeFilterIgnoresCase | src/components/PaymentManagement.tsx:132 | a type and its lower-case form keep the same transactions |
| PaymentManagement.StatusFilterIsExact | src/components/PaymentManagement.tsx:131 | a status no transaction has exactly empties the table |
| PaymentManagement.ChooseMenuEntry | src/components/PaymentManagement.tsx:112-122 | a receipt for a completed payment, a check for a pending one, a retry for a failed one |
| TransactionTable.StatusBadge | src/components/TransactionTable.tsx:34-45 | caption is the status; styled iff known; destructive iff failed, default iff completed |
| TransactionTable.StatusBadgeInjective | src/components/TransactionTable.tsx:34-45 | different statuses never share a badge |
| TransactionTable.MenuItems | src/components/TransactionTable.tsx:112-126 | Receipt, Verify or Retry for the three statuses, nothing otherwise |
| TransactionTable.HandleAction | src/components/TransactionTable.tsx:47-59 | each callback exactly for its action, none for an unknown one |
| TransactionTable.MenuDispatchesByStatus | src/components/TransactionTable.tsx:112-126 | every menu entry calls the callback for the row's status |
| TransactionTable.Rows | src/components/TransactionTable.tsx:78 | one row per transaction, in order |
| TransactionTable.RowsRoundTrip | src/components/TransactionTable.tsx:78-103 | each row shows all of its transaction |
| TransactionTable.RowsAppend | src/components/TransactionTable.tsx:78 | the rows of two lists are the rows of each |

## Left out

- Server calls: every request is a parameter that stands for its outcome (`Option` data, `accepted`, or an outcome datatype). The HTTP client, its token refresh and its redirects are not part of this model.
- Clock: `Date.now()`, `new Date(...)` and the date library become integer timestamps and a `now` parameter. The date-time formatting behind the edit forms and the dialog defaults becomes a `formatDate` parameter, or the ready texts `tomorrow` and `nextWeek`.
- `encodeURIComponent` is a parameter (`encode`) of the user search.
- Floating point: `Math.round(a / b)` is half-up integer rounding, and scores are whole numbers. The quiz timer's colour, a percentage of the time left, is left out.
- Concurrency: the interval timer, `Promise.all`, React's batching of state updates and a second click while an answer is being saved are not modelled. Each handler is one sequential step; the in-flight set is modelled, the race it guards against is not.
- Rendering: JSX, icons, toasts (except where a toast's text is the result), navigation calls (modelled as a returned path) and the Blob download of the CSV export.
- QuizTaking: the loading of quiz, questions and attempt is modelled only through its two outcomes, the `Preview` and `Resume` constructors. The `mm:ss` countdown text is left out.
- QuizEdit: `loadData` is modelled as `FormOf`. `confirmCancel` only navigates and is left out. The sending of the update request, after `CheckSave`, is modelled only as `UpdatePayload`.
- QuizQuestions: `loadData` and `handleDelete` are left out; the delete handler matches the one of QuestionManagement, which is modelled.
- ResourceManagement: `handleDelete`, `handleToggleActive` and `handleOpenResource` are left out. They send one request, reload and show a toast, or open a browser window.
- TopicManagement: `handleDelete` is left out for the same reason.
- UserDirectory: `handleEditUser`, `handleViewUser` and `handleResetPassword` only show toasts and are left out.
- PaymentManagement: `handleRefresh` and `handleExportReport` only show toasts and are left out.
- Dashboard: the colours and icons of `getQuizStatusInfo` are left out; its status is `Availability.Classify` and its label `Dashboard.StatusLabel`.
- Text: ASCII case folding only; no Unicode case mapping. `parseInt` reads decimal digits with an optional sign after leading spaces. Other radixes and number formats are not modelled.
- Topics.BuildTopicHierarchy: a cycle of parent ids leaves its topics unreachable from the roots. The model states where each topic is placed, not that the forest is acyclic.
- Login: an absent `message` or `error` field of the server's reply is modelled as the empty text, which the source's `||` treats the same way.
- AddUserModal: the new user's id comes from the clock in the source and is a parameter here.
- UserDirectory: a role or status filter is "all" only as exactly "all"; "ALL" is compared with the role, ignoring case, as in the source.
- QuizManagement.SearchStep: the search applies only to a non-blank query, but it matches the untrimmed query, spaces included, as in the source.
- ResourceManagement.FilteredResources: a status filter other than "all", "active" and "inactive" hides every resource, as the source's predicate does. QuizManagement's status filter instead lets such a value through.
- QuizQuestions.EditForm: the source sorts the listed question's own `answers` array in place, so the list shown on the page is reordered too. The model returns a sorted copy and leaves the list as it was.
- QuizTaking.QuizTakingPage.JumpToQuestion: the source assigns the index unchecked. The model requires an index of a question, which is what every caller passes.

## Findings

| source | as written | input that shows it | evidently intended | confidence | as-written member | corrected member |
|---|---|---|---|---|---|---|
| src/pages/admin/QuizResultsDetail.tsx:136 | each CSV cell is wrapped in double quotes, but quotes inside a cell are not doubled | the one-cell row `a","b` and the two-cell row `a`, `b` both export as `"a","b"`; a user named `O"Neil` exports as `"O"Neil ..."` | quotes inside a cell doubled, as section 2 rule 7 of RFC 4180 requires, so that every row can be read back | not executed | QuizResultsDetail.ExportCsv, Csv.RowAsWrittenIsAmbiguous | QuizResultsDetail.ExportCsvEscaped, Csv.ParseEncodedRows, QuizResultsDetail.ExportCsvReadsBack |
| src/pages/admin/QuizAnalytics.tsx:132-137 | ranks other than 1 to 3 get the suffix "th" | rank 21 reads "21th", 22 "22th", 23 "23th" | the English ordinal suffix: "21st", "22nd", "23rd", with "th" for 11 to 13 | not executed | QuizAnalytics.RankBadgeTwentyFirst | QuizAnalytics.OrdinalRankBadgeReadsBack, QuizAnalytics.OrdinalBadgesPastTwenty |

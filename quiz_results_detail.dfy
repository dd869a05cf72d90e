/**
 * The administrators' page of one quiz's results: the completed attempts in
 * a table the user can re-sort by score, time taken or submission date, the
 * statistics cards above it, the elapsed time of each attempt, the score
 * badge, and the CSV export of the table.
 */
module QuizResultsDetail {
  import opened Common
  import opened Types
  import opened Sorting
  import opened AttemptStats
  import opened Csv

  datatype SortKey = ByScore | ByTime | ByDate
  datatype SortOrder = Asc | Desc

  /** `new Date(a.completedAt || a.startedAt).getTime()` */
  function DateKey(a: Attempt): int {
    a.completedAt.GetOr(a.startedAt)
  }

  /** The comparison key of each column: the score (missing = 0), the duration (0 without an end time), the date. */
  function KeyOf(column: SortKey): Attempt -> int {
    match column
    case ByScore => ScoreOf
    case ByTime => DurationMs
    case ByDate => DateKey
  }

  /**
   * `[...attempts].sort(...)` with the comparison of the chosen column, negated
   * for the descending order.
   */
  function SortAttempts(attempts: seq<Attempt>, column: SortKey, order: SortOrder): (r: seq<Attempt>)
    ensures multiset(r) == multiset(attempts)
    ensures order == Asc ==> SortedBy(r, KeyOf(column))
    ensures order == Desc ==> SortedDescBy(r, KeyOf(column))
  {
    match order
    case Asc => SortBy(attempts, KeyOf(column))
    case Desc => SortByDesc(attempts, KeyOf(column))
  }

  /** The statistics cards (getStatistics). */
  datatype DetailStatistics = DetailStatistics(
    totalAttempts: int,
    averageScore: int,
    highestScore: int,
    lowestScore: int,
    passRate: int,
    averageTime: int)

  function GetStatistics(attempts: seq<Attempt>): (st: DetailStatistics)
    ensures attempts == [] ==> st == DetailStatistics(0, 0, 0, 0, 0, 0)
    ensures attempts != [] ==>
      st.totalAttempts == |attempts|
      && st.lowestScore <= st.averageScore <= st.highestScore
      && 0 <= st.passRate <= 100
  {
    if attempts == [] then DetailStatistics(0, 0, 0, 0, 0, 0)
    else
      MeanScoreBetween(attempts);
      DetailStatistics(
        |attempts|,
        MeanScore(attempts),
        HighestScore(attempts),
        LowestScore(attempts),
        PassRate(attempts),
        AverageMinutes(attempts))
  }

  /** Re-sorting the table never changes the statistics cards. */
  lemma SortingKeepsStatistics(attempts: seq<Attempt>, column: SortKey, order: SortOrder)
    ensures GetStatistics(SortAttempts(attempts, column, order)) == GetStatistics(attempts)
  {
    var sorted := SortAttempts(attempts, column, order);
    if attempts != [] {
      StatisticsIgnoreOrder(attempts, sorted);
    } else {
      assert |sorted| == |multiset(sorted)| == 0;
    }
  }

  /** The score badge is green when the score (missing = 0) reaches the pass mark. */
  predicate ScoreBadgeGreen(a: Attempt, passingScore: int) {
    ScoreOf(a) >= passingScore
  }

  /** Every badge in the table is green exactly when the lowest score card reaches the pass mark. */
  lemma AllBadgesGreenIff(attempts: seq<Attempt>, passingScore: int)
    requires attempts != []
    ensures (forall i :: 0 <= i < |attempts| ==> ScoreBadgeGreen(attempts[i], passingScore))
      <==> GetStatistics(attempts).lowestScore >= passingScore
  {
    var lo := LowestScore(attempts);
    var k :| 0 <= k < |attempts| && ScoreOf(attempts[k]) == lo;
  }

  // ---------------------------------------------------------------------------
  // The page

  /** Every attempt in the list is completed. */
  predicate AllCompleted(attempts: seq<Attempt>) {
    forall i :: 0 <= i < |attempts| ==> attempts[i].status == COMPLETED
  }

  class ResultsDetailPage {
    var quiz: Option<Quiz>
    var attempts: seq<Attempt>
    var sortBy: SortKey
    var sortOrder: SortOrder

    /** The table starts empty, sorted by score from the highest down. */
    constructor()
      ensures quiz.None? && attempts == [] && sortBy == ByScore && sortOrder == Desc
      ensures AllCompleted(attempts)
    {
      quiz := None;
      attempts := [];
      sortBy := ByScore;
      sortOrder := Desc;
    }

    /**
     * loadQuizResults: the quiz and its completed attempts, kept in the order
     * the server sent them; a failed request leaves the page as it was.
     */
    method Load(response: Option<(Quiz, seq<Attempt>)>)
      modifies this`quiz, this`attempts
      ensures response.Some? ==> quiz == Some(response.value.0) && attempts == CompletedOnly(response.value.1)
      ensures response.None? ==> quiz == old(quiz) && attempts == old(attempts)
      ensures old(AllCompleted(attempts)) ==> AllCompleted(attempts)
    {
      if response.Some? {
        var (q, data) := response.value;
        quiz := Some(q);
        attempts := CompletedOnly(data);
      }
    }

    /** Choosing a column re-sorts only when the column changes. */
    method SetSortBy(key: SortKey)
      modifies this`sortBy, this`attempts
      ensures sortBy == key
      ensures key == old(sortBy) ==> attempts == old(attempts)
      ensures key != old(sortBy) ==> attempts == SortAttempts(old(attempts), key, sortOrder)
      ensures old(AllCompleted(attempts)) ==> AllCompleted(attempts)
    {
      if key != sortBy {
        sortBy := key;
        if AllCompleted(attempts) {
          SortKeepsCompleted(attempts, sortBy, sortOrder);
        }
        attempts := SortAttempts(attempts, sortBy, sortOrder);
      }
    }

    /** Choosing an order re-sorts only when the order changes. */
    method SetSortOrder(order: SortOrder)
      modifies this`sortOrder, this`attempts
      ensures sortOrder == order
      ensures order == old(sortOrder) ==> attempts == old(attempts)
      ensures order != old(sortOrder) ==> attempts == SortAttempts(old(attempts), sortBy, order)
      ensures old(AllCompleted(attempts)) ==> AllCompleted(attempts)
    {
      if order != sortOrder {
        sortOrder := order;
        if AllCompleted(attempts) {
          SortKeepsCompleted(attempts, sortBy, sortOrder);
        }
        attempts := SortAttempts(attempts, sortBy, sortOrder);
      }
    }
  }

  /** Sorting a list of completed attempts gives completed attempts. */
  lemma SortKeepsCompleted(attempts: seq<Attempt>, column: SortKey, order: SortOrder)
    requires AllCompleted(attempts)
    ensures AllCompleted(SortAttempts(attempts, column, order))
  {
    var sorted := SortAttempts(attempts, column, order);
    forall i | 0 <= i < |sorted|
      ensures sorted[i].status == COMPLETED
    {
      assert sorted[i] in multiset(attempts);
      var j :| 0 <= j < |attempts| && attempts[j] == sorted[i];
    }
  }

  // ---------------------------------------------------------------------------
  // CSV export

  function Headers(): seq<Text> {
    ["Name", "Email", "Score (%)", "Points", "Pass/Fail", "Time Taken", "Submitted At"]
  }

  /** `headers.join(',')`: the header cells are not quoted. */
  function HeaderLine(): Text {
    Join(Headers(), ",")
  }

  /** `attempt.totalQuestions || quiz?.questionCount || 0` */
  function TotalQuestionsOf(a: Attempt, quiz: Option<Quiz>): int {
    if Truthy(a.totalQuestions) then a.totalQuestions.value
    else if quiz.Some? && quiz.value.questionCount != 0 then quiz.value.questionCount
    else 0
  }

  /** `${attempt.user?.firstName || ''} ${attempt.user?.lastName || ''}` */
  function NameCell(a: Attempt): Text {
    if a.user.Some? then a.user.value.firstName + " " + a.user.value.lastName else " "
  }

  /**
   * The seven cells of an attempt's row; `formatDate` stands for the date
   * library's 'yyyy-MM-dd HH:mm:ss' formatting.
   */
  function RowCells(a: Attempt, quiz: Option<Quiz>, formatDate: int -> Text): (cells: seq<Text>)
    ensures |cells| == |Headers()|
  {
    [
      NameCell(a),
      if a.user.Some? then a.user.value.email else "",
      IntToString(ScoreOf(a)),
      IntToString(OrZero(a.correctAnswers)) + "/" + IntToString(TotalQuestionsOf(a, quiz)),
      if PassedOf(a) then "Pass" else "Fail",
      FormatElapsed(a.startedAt, a.completedAt),
      if a.completedAt.Some? then formatDate(a.completedAt.value) else "N/A"
    ]
  }

  function Rows(attempts: seq<Attempt>, quiz: Option<Quiz>, formatDate: int -> Text): (rows: seq<seq<Text>>)
    ensures |rows| == |attempts|
    ensures forall i :: 0 <= i < |attempts| ==> rows[i] == RowCells(attempts[i], quiz, formatDate)
  {
    seq(|attempts|, i requires 0 <= i < |attempts| => RowCells(attempts[i], quiz, formatDate))
  }

  /**
   * exportToCSV as written: nothing but an error without attempts; otherwise
   * the header line and one record per attempt in table order, joined by
   * '\n', each data cell wrapped in double quotes and nothing escaped.
   */
  function ExportCsv(attempts: seq<Attempt>, quiz: Option<Quiz>, formatDate: int -> Text): (r: Option<Text>)
    ensures r.None? <==> attempts == []
    ensures attempts != [] ==>
      r == Some(HeaderLine() + "\n" + Join(RowsAsWritten(Rows(attempts, quiz, formatDate)), "\n"))
  {
    if attempts == [] then None
    else
      var lines := [HeaderLine()] + RowsAsWritten(Rows(attempts, quiz, formatDate));
      assert lines[1..] == RowsAsWritten(Rows(attempts, quiz, formatDate));
      Some(Join(lines, "\n"))
  }

  /**
   * The export with quotes inside a cell doubled (section 2 rule 7 of
   * RFC 4180), so that every record can be read back.
   */
  function ExportCsvEscaped(attempts: seq<Attempt>, quiz: Option<Quiz>, formatDate: int -> Text): (r: Option<Text>)
    ensures r.None? <==> attempts == []
  {
    if attempts == [] then None
    else Some(Join([HeaderLine()] + EncodedRows(Rows(attempts, quiz, formatDate)), "\n"))
  }

  /**
   * The escaped export is the header line and a body from which a CSV reader
   * gets back, in table order, the seven cells of every attempt.
   */
  lemma ExportCsvReadsBack(attempts: seq<Attempt>, quiz: Option<Quiz>, formatDate: int -> Text)
    requires attempts != []
    ensures ExportCsvEscaped(attempts, quiz, formatDate) == Some(HeaderLine() + "\n" + EncodeRows(Rows(attempts, quiz, formatDate)))
    ensures ParseRecords(EncodeRows(Rows(attempts, quiz, formatDate))) == Some(Rows(attempts, quiz, formatDate))
  {
    var rows := Rows(attempts, quiz, formatDate);
    var lines := [HeaderLine()] + EncodedRows(rows);
    assert lines[1..] == EncodedRows(rows);
    JoinCons(lines, "\n");
    ParseEncodedRows(rows);
  }

  /**
   * Where no name, e-mail or other cell holds a double quote, the export as
   * written is the escaped one, and so reads back.
   */
  lemma ExportsAgreeWithoutQuotes(attempts: seq<Attempt>, quiz: Option<Quiz>, formatDate: int -> Text)
    requires QuoteFree(Rows(attempts, quiz, formatDate))
    ensures ExportCsv(attempts, quiz, formatDate) == ExportCsvEscaped(attempts, quiz, formatDate)
  {
    EncodedRowsAgreeWithoutQuotes(Rows(attempts, quiz, formatDate));
  }
}

/**
 * The payments page: a fixed list of mock transactions, a search box and
 * three selects, the list the table shows, and the toasts behind the table's
 * row actions.
 */
module PaymentManagement {
  import opened Common
  import opened TransactionTable

  const NAIRA: Text := "\U{20A6}"

  /** mockTransactions */
  const MOCK_TRANSACTIONS: seq<Transaction> := [
    Transaction("1", "PAY2024E2214", "Adaego Boniface", "STU/2021/001", NAIRA + "51,000", "School Fees", "Bank Transfer", "2024-01-20", "completed"),
    Transaction("2", "PAY2467HMEC19", "Tunuka Bakara", "STU/2021/003", NAIRA + "12,000", "Uniform", "Card", "2024-01-19", "pending"),
    Transaction("3", "PAY2467HMEC16", "Grace Chibora", "STU/2021/003", NAIRA + "9,500", "Books", "USSD", "2024-01-18", "completed"),
    Transaction("4", "PAY2467HMEC17", "Yusuf Ibrahim", "STU/2021/004", NAIRA + "12,000", "School Fees", "Bank Transfer", "2024-01-17", "failed"),
    Transaction("5", "PAY2467HMEC18", "Adaego Chioma", "STU/2021/002", NAIRA + "45,000", "Excursion", "Card", "2024-01-16", "completed"),
    Transaction("6", "PAY2024E2219", "Emeka Adaokwu", "STU/2021/006", NAIRA + "25,000", "House fees", "Bank Transfer", "2024-01-13", "pending")
  ]

  // ---------------------------------------------------------------------------
  // The filter

  /** The search matches the student's name, the student's id or the transaction id, ignoring case. */
  predicate MatchesSearch(t: Transaction, query: Text) {
    ContainsIgnoringCase(t.studentName, query)
    || ContainsIgnoringCase(t.studentId, query)
    || ContainsIgnoringCase(t.transactionId, query)
  }

  /** The status must be exactly the selected value, unless it is "all". */
  predicate MatchesStatus(t: Transaction, statusFilter: Text) {
    statusFilter == "all" || t.status == statusFilter
  }

  /** The type is compared ignoring case, unless the selected value is "all". */
  predicate MatchesType(t: Transaction, typeFilter: Text) {
    typeFilter == "all" || Lower(t.paymentType) == Lower(typeFilter)
  }

  predicate Listed(t: Transaction, query: Text, statusFilter: Text, typeFilter: Text) {
    MatchesSearch(t, query) && MatchesStatus(t, statusFilter) && MatchesType(t, typeFilter)
  }

  /** The page's state: the list and the four controls. */
  datatype PaymentView = PaymentView(
    transactions: seq<Transaction>, searchQuery: Text, statusFilter: Text, typeFilter: Text, termFilter: Text)

  const INITIAL_VIEW := PaymentView(MOCK_TRANSACTIONS, "", "all", "all", "all")

  /** filteredTransactions: the transactions passing all three tests, in list order. */
  function FilteredTransactions(v: PaymentView): (r: seq<Transaction>)
    ensures forall t :: t in r <==> t in v.transactions && Listed(t, v.searchQuery, v.statusFilter, v.typeFilter)
    ensures forall t :: (multiset(r)[t] ==
       (if Listed(t, v.searchQuery, v.statusFilter, v.typeFilter) then multiset(v.transactions)[t] else 0))
    ensures IsSubsequence(r, v.transactions)
  {
    var keep := (t: Transaction) => Listed(t, v.searchQuery, v.statusFilter, v.typeFilter);
    FilterIsSubsequence(v.transactions, keep);
    FilterCounts(v.transactions, keep);
    Filter(v.transactions, keep)
  }

  /** The controls: each sets its own value and nothing else. */
  function Search(v: PaymentView, query: Text): (w: PaymentView)
    ensures w.searchQuery == query
    ensures w.transactions == v.transactions && w.statusFilter == v.statusFilter
    ensures w.typeFilter == v.typeFilter && w.termFilter == v.termFilter
  {
    v.(searchQuery := query)
  }

  function SetStatusFilter(v: PaymentView, value: Text): (w: PaymentView)
    ensures w.statusFilter == value
    ensures w.transactions == v.transactions && w.searchQuery == v.searchQuery
    ensures w.typeFilter == v.typeFilter && w.termFilter == v.termFilter
  {
    v.(statusFilter := value)
  }

  function SetTypeFilter(v: PaymentView, value: Text): (w: PaymentView)
    ensures w.typeFilter == value
    ensures w.transactions == v.transactions && w.searchQuery == v.searchQuery
    ensures w.statusFilter == v.statusFilter && w.termFilter == v.termFilter
  {
    v.(typeFilter := value)
  }

  function SetTermFilter(v: PaymentView, value: Text): (w: PaymentView)
    ensures w.termFilter == value
    ensures w.transactions == v.transactions && w.searchQuery == v.searchQuery
    ensures w.statusFilter == v.statusFilter && w.typeFilter == v.typeFilter
  {
    v.(termFilter := value)
  }

  /** The page has no way to change its list: every reachable view lists the mock data. */
  datatype Control = SearchBox(q: Text) | StatusSelect(s: Text) | TypeSelect(s: Text) | TermSelect(s: Text)

  function Apply(v: PaymentView, c: Control): PaymentView {
    match c
    case SearchBox(q) => Search(v, q)
    case StatusSelect(s) => SetStatusFilter(v, s)
    case TypeSelect(s) => SetTypeFilter(v, s)
    case TermSelect(s) => SetTermFilter(v, s)
  }

  function ApplyAll(v: PaymentView, cs: seq<Control>): PaymentView
    decreases |cs|
  {
    if cs == [] then v else ApplyAll(Apply(v, cs[0]), cs[1..])
  }

  lemma {:induction false} TransactionsNeverChange(v: PaymentView, cs: seq<Control>)
    ensures ApplyAll(v, cs).transactions == v.transactions
    decreases |cs|
  {
    if cs != [] {
      TransactionsNeverChange(Apply(v, cs[0]), cs[1..]);
    }
  }

  /** The term select is shown but never consulted: changing it leaves the table as it was. */
  lemma TermFilterIgnored(v: PaymentView, value: Text)
    ensures FilteredTransactions(SetTermFilter(v, value)) == FilteredTransactions(v)
  {
  }

  /** With every control at its initial value the table lists every transaction. */
  lemma InitialViewListsAll()
    ensures FilteredTransactions(INITIAL_VIEW) == MOCK_TRANSACTIONS
  {
    forall t | t in MOCK_TRANSACTIONS
      ensures Listed(t, "", "all", "all")
    {
      IncludesEmpty(Lower(t.studentName));
    }
    FilterAll(MOCK_TRANSACTIONS, (t: Transaction) => Listed(t, "", "all", "all"));
  }

  /**
   * The type select ignores case: a selected type and its lower-case form
   * keep the same transactions (the value "all" aside, which is matched
   * literally).
   */
  lemma TypeFilterIgnoresCase(v: PaymentView)
    requires v.typeFilter != "all" && Lower(v.typeFilter) != "all"
    ensures FilteredTransactions(SetTypeFilter(v, Lower(v.typeFilter))) == FilteredTransactions(v)
  {
    var w := SetTypeFilter(v, Lower(v.typeFilter));
    LowerIdempotent(v.typeFilter);
    FilterCongruent(v.transactions,
      (t: Transaction) => Listed(t, w.searchQuery, w.statusFilter, w.typeFilter),
      (t: Transaction) => Listed(t, v.searchQuery, v.statusFilter, v.typeFilter));
  }

  /** The status select does not ignore case: a value no transaction carries exactly empties the table. */
  lemma StatusFilterIsExact(v: PaymentView)
    requires v.statusFilter != "all"
    requires forall t :: t in v.transactions ==> t.status != v.statusFilter
    ensures FilteredTransactions(v) == []
  {
    FilterNone(v.transactions, (t: Transaction) => Listed(t, v.searchQuery, v.statusFilter, v.typeFilter));
  }

  // ---------------------------------------------------------------------------
  // The row actions

  /** The toast each callback shows. */
  function ActionToast(c: Callback, t: Transaction): Text {
    match c
    case OnReceipt => "Receipt generated for " + t.studentName
    case OnVerify => "Verifying payment for " + t.studentName + "..."
    case OnRetry => "Retrying payment for " + t.studentName + "..."
  }

  /** Choosing a row's menu entry: the toast of the callback its action calls, if any. */
  function ChooseMenuEntry(t: Transaction, item: MenuItem): (toast: Option<Text>)
    requires item in MenuItems(t.status)
    ensures toast.Some?
    ensures t.status == "completed" ==> toast == Some("Receipt generated for " + t.studentName)
    ensures t.status == "pending" ==> toast == Some("Verifying payment for " + t.studentName + "...")
    ensures t.status == "failed" ==> toast == Some("Retrying payment for " + t.studentName + "...")
  {
    MenuDispatchesByStatus(t.status);
    match HandleAction(item.action)
    case Some(c) => Some(ActionToast(c, t))
    case None => None
  }
}

/**
 * The payments table: one row per transaction, a status badge, and a row
 * menu whose single entry depends on the status and calls back into the
 * payments page.
 */
module TransactionTable {
  import opened Common

  /**
   * A payment. `status` is "completed", "pending" or "failed" in the data the
   * page shows; other text is handled by the badge's default case, so it is
   * kept as text.
   */
  datatype Transaction = Transaction(
    id: Text, transactionId: Text, studentName: Text, studentId: Text,
    amount: Text, paymentType: Text, paymentMethod: Text, date: Text, status: Text)

  // ---------------------------------------------------------------------------
  // The status badge

  datatype BadgeVariant = Default | Secondary | Destructive

  datatype Badge = Badge(variant: BadgeVariant, className: Text, caption: Text)

  /** getStatusBadge */
  function StatusBadge(status: Text): (b: Badge)
    ensures b.caption == status
    ensures b.className != [] <==> status in {"completed", "pending", "failed"}
    ensures b.variant == Destructive <==> status == "failed"
    ensures b.variant == Default <==> status == "completed"
  {
    if status == "completed" then Badge(Default, "bg-gray-900 text-white", "completed")
    else if status == "pending" then Badge(Secondary, "bg-orange-100 text-orange-800", "pending")
    else if status == "failed" then Badge(Destructive, "bg-red-100 text-red-800", "failed")
    else Badge(Secondary, "", status)
  }

  /** Different statuses never share a badge. */
  lemma StatusBadgeInjective(s: Text, t: Text)
    requires StatusBadge(s) == StatusBadge(t)
    ensures s == t
  {
  }

  // ---------------------------------------------------------------------------
  // The row menu and handleAction

  /** The page's three callbacks. */
  datatype Callback = OnReceipt | OnVerify | OnRetry

  datatype MenuItem = MenuItem(caption: Text, action: Text)

  /** The entries of a row's menu, by the transaction's status. */
  function MenuItems(status: Text): (items: seq<MenuItem>)
    ensures |items| <= 1
    ensures status == "completed" ==> items == [MenuItem("Receipt", "receipt")]
    ensures status == "pending" ==> items == [MenuItem("Verify", "verify")]
    ensures status == "failed" ==> items == [MenuItem("Retry", "retry")]
    ensures items == [] <==> status !in {"completed", "pending", "failed"}
  {
    (if status == "completed" then [MenuItem("Receipt", "receipt")] else [])
    + (if status == "pending" then [MenuItem("Verify", "verify")] else [])
    + (if status == "failed" then [MenuItem("Retry", "retry")] else [])
  }

  /** handleAction: the callback an action calls, none for an unknown action. */
  function HandleAction(action: Text): (c: Option<Callback>)
    ensures c == Some(OnReceipt) <==> action == "receipt"
    ensures c == Some(OnVerify) <==> action == "verify"
    ensures c == Some(OnRetry) <==> action == "retry"
  {
    if action == "receipt" then Some(OnReceipt)
    else if action == "verify" then Some(OnVerify)
    else if action == "retry" then Some(OnRetry)
    else None
  }

  /** The callback each status leads to. */
  function CallbackFor(status: Text): Option<Callback> {
    if status == "completed" then Some(OnReceipt)
    else if status == "pending" then Some(OnVerify)
    else if status == "failed" then Some(OnRetry)
    else None
  }

  /**
   * Every entry a row's menu offers calls a callback, and it is the one for
   * the row's status: a receipt only for a completed payment, a check only
   * for a pending one, a retry only for a failed one.
   */
  lemma MenuDispatchesByStatus(status: Text)
    ensures forall item :: item in MenuItems(status) ==> HandleAction(item.action) == CallbackFor(status)
    ensures CallbackFor(status).Some? <==> MenuItems(status) != []
  {
  }

  // ---------------------------------------------------------------------------
  // The rows

  /** What a row shows. */
  datatype Row = Row(
    key: Text, transactionId: Text, studentName: Text, studentId: Text, amount: Text,
    paymentType: Text, paymentMethod: Text, date: Text, badge: Badge, menu: seq<MenuItem>)

  function RowOf(t: Transaction): Row {
    Row(t.id, t.transactionId, t.studentName, t.studentId, t.amount, t.paymentType, t.paymentMethod,
        t.date, StatusBadge(t.status), MenuItems(t.status))
  }

  /** `transactions.map(...)`: one row per transaction, in order. */
  function Rows(transactions: seq<Transaction>): (rows: seq<Row>)
    ensures |rows| == |transactions|
    ensures forall i :: 0 <= i < |rows| ==> rows[i] == RowOf(transactions[i])
  {
    seq(|transactions|, i requires 0 <= i < |transactions| => RowOf(transactions[i]))
  }

  /** A row shows everything about its transaction: the transaction can be read back from it. */
  function TransactionOf(r: Row): Transaction {
    Transaction(r.key, r.transactionId, r.studentName, r.studentId, r.amount, r.paymentType,
                r.paymentMethod, r.date, r.badge.caption)
  }

  lemma RowsRoundTrip(transactions: seq<Transaction>)
    ensures forall i :: 0 <= i < |transactions| ==> TransactionOf(Rows(transactions)[i]) == transactions[i]
  {
  }

  /** The table of two lists is the table of the first followed by that of the second. */
  lemma RowsAppend(a: seq<Transaction>, b: seq<Transaction>)
    ensures Rows(a + b) == Rows(a) + Rows(b)
  {
  }
}

/** getPaymentStatus and the payment line of the success card
    (components/ResultModal.tsx). */
module Payment {
  import opened Text
  import opened Types

  /** The classification shown on the card (its colour classes are left out). */
  datatype PaymentStatus = PaymentStatus(isPaid: bool, labelText: string)

  /** Values, after lower-casing and trimming, that count as paid. */
  const PaidWords: seq<string> := ["paid", "done", "yes", "true", "completed", "received"]

  /** String(val).toLowerCase().trim() */
  function Normalise(v: Cell): string {
    Trim(Lower(ToStr(v)))
  }

  function GetPaymentStatus(v: Cell): PaymentStatus {
    if Normalise(v) in PaidWords then PaymentStatus(true, "PAID")
    else PaymentStatus(false, if ToStr(v) == "" then "PENDING" else ToStr(v))
  }

  /** The success card's payment line: classified when a payment column is
      mapped, otherwise "N/A" and counted as paid. */
  function PaymentInfo(m: ColumnMapping, row: Row): PaymentStatus {
    if m.paymentColumn != "" then GetPaymentStatus(Get(row, m.paymentColumn))
    else PaymentStatus(true, "N/A")
  }

  /** The label "PAID" never appears on an unpaid value: a cell reading
      "PAID" is itself classified as paid. */
  lemma PaidLabelMeansPaid(v: Cell)
    ensures GetPaymentStatus(v).labelText == "PAID" <==> GetPaymentStatus(v).isPaid
  {
    var s := ToStr(v);
    if s == "PAID" {
      calc {
        Normalise(v);
        Trim(Lower("PAID"));
        { assert Lower("PAID") == "paid"; }
        Trim("paid");
        { assert Trim("paid") == "paid"; }
        "paid";
      }
    }
  }

  /** Surrounding whitespace is ignored. */
  lemma PaddingIgnored(a: string, s: string, b: string)
    requires AllSpace(a) && AllSpace(b)
    ensures GetPaymentStatus(Str(a + s + b)).isPaid == GetPaymentStatus(Str(s)).isPaid
  {
    var la, lb := Lower(a), Lower(b);
    assert Lower(a + s + b) == la + Lower(s) + lb;
    LowerAllSpace(a);
    LowerAllSpace(b);
    TrimPadded(la, Lower(s), lb);
  }

  /** Letter case is ignored. */
  lemma CaseIgnored(s: string)
    ensures GetPaymentStatus(Str(Lower(s))).isPaid == GetPaymentStatus(Str(s)).isPaid
  {
    LowerIdempotent(s);
  }

  /** " Paid " is paid. */
  lemma PaddedPaidIsPaid()
    ensures GetPaymentStatus(Str(" Paid ")) == PaymentStatus(true, "PAID")
  {
    assert Lower(" Paid ") == " " + "paid" + " ";
    TrimPadded(" ", "paid", " ");
    assert Trim("paid") == "paid";
  }

  /** The boolean true is paid. */
  lemma TrueIsPaid()
    ensures GetPaymentStatus(Bool(true)) == PaymentStatus(true, "PAID")
  {
    assert Lower("true") == "true";
    assert Trim("true") == "true";
  }

  /** null is unpaid and keeps the label "null", not "PENDING". */
  lemma NullIsLabelledNull()
    ensures GetPaymentStatus(Null) == PaymentStatus(false, "null")
  {
    assert Lower("null") == "null";
    assert Trim("null") == "null";
    assert forall w | w in PaidWords :: w[0] != 'n';
  }

  /** An empty cell reads "PENDING". */
  lemma EmptyIsPending()
    ensures GetPaymentStatus(Str("")) == PaymentStatus(false, "PENDING")
  {
    assert Lower("") == "";
  }

  /** The payment line reads nothing of the row but its payment cell, and
      nothing at all when no payment column is mapped. */
  lemma PaymentInfoReadsOnlyPaymentCell(m: ColumnMapping, row1: Row, row2: Row)
    requires m.paymentColumn != "" ==> Get(row1, m.paymentColumn) == Get(row2, m.paymentColumn)
    ensures PaymentInfo(m, row1) == PaymentInfo(m, row2)
  {
  }

  /** The line reads "PAID" exactly when a payment column is mapped and its
      cell is paid; an unmapped payment counts as paid but reads "N/A". */
  lemma PaidLineMeansPaidCell(m: ColumnMapping, row: Row)
    ensures PaymentInfo(m, row).labelText == "PAID" <==>
      m.paymentColumn != "" && GetPaymentStatus(Get(row, m.paymentColumn)).isPaid
    ensures m.paymentColumn == "" ==> PaymentInfo(m, row).isPaid
  {
    if m.paymentColumn != "" {
      PaidLabelMeansPaid(Get(row, m.paymentColumn));
    }
  }
}

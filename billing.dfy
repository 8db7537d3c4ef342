/** The billing page: the fixed invoice list, the invoice total shown in the
    details dialog, the status badge, the payment note and the "Mark as Paid"
    action, and what marking an invoice as paid does to the page's state.
    Amounts are whole dollars. */
module Billing {
  import opened Ui

  datatype InvoiceStatus = Paid | Pending | Overdue | Rejected

  datatype LineItem = LineItem(description: string, quantity: int, unitPrice: int, total: int)

  datatype Invoice = Invoice(
    id: string,
    patientId: string,
    patientName: string,
    date: string,
    dueDate: string,
    amount: int,
    status: InvoiceStatus,
    items: seq<LineItem>)

  const Invoices: seq<Invoice> := [
    Invoice("INV-1001", "PT-1001", "John Smith", "2025-04-01", "2025-04-15", 1250, Paid, [
      LineItem("Consultation Fee", 1, 200, 200),
      LineItem("ECG Test", 1, 350, 350),
      LineItem("Blood Work", 1, 450, 450),
      LineItem("Medication", 5, 50, 250)]),
    Invoice("INV-1002", "PT-1003", "Michael Brown", "2025-04-03", "2025-04-17", 3200, Pending, [
      LineItem("MRI Scan", 1, 2500, 2500),
      LineItem("Consultation Fee", 1, 200, 200),
      LineItem("Medication", 10, 50, 500)]),
    Invoice("INV-1003", "PT-1004", "Emily Davis", "2025-03-25", "2025-04-08", 750, Overdue, [
      LineItem("Consultation Fee", 1, 200, 200),
      LineItem("X-Ray", 1, 300, 300),
      LineItem("Medication", 5, 50, 250)]),
    Invoice("INV-1004", "PT-1002", "Sarah Johnson", "2025-04-05", "2025-04-19", 1800, Pending, [
      LineItem("Consultation Fee", 1, 200, 200),
      LineItem("Surgery - Minor", 1, 1500, 1500),
      LineItem("Medication", 2, 50, 100)]),
    Invoice("INV-1005", "PT-1005", "Robert Wilson", "2025-04-07", "2025-04-21", 4500, Paid, [
      LineItem("Consultation Fee", 1, 200, 200),
      LineItem("Surgery - Major", 1, 3500, 3500),
      LineItem("Hospital Stay (2 days)", 2, 250, 500),
      LineItem("Medication", 6, 50, 300)])
  ]

  // ---------------------------------------------------------------------
  // Totals

  /** `calculateTotal`: `items.reduce((sum, item) => sum + item.total, 0)`. */
  function CalculateTotal(items: seq<LineItem>): int
  {
    if items == [] then 0 else CalculateTotal(items[..|items| - 1]) + items[|items| - 1].total
  }

  /** What the items charge: quantity times unit price, summed. */
  function Charged(items: seq<LineItem>): int
  {
    if items == [] then 0 else items[0].quantity * items[0].unitPrice + Charged(items[1..])
  }

  /** The total of a concatenation is the sum of the totals. */
  lemma {:induction false} CalculateTotalAppend(a: seq<LineItem>, b: seq<LineItem>)
    ensures CalculateTotal(a + b) == CalculateTotal(a) + CalculateTotal(b)
    decreases |b|
  {
    if b == [] {
      assert a + b == a;
    } else {
      var b' := b[..|b| - 1];
      assert (a + b)[..|a + b| - 1] == a + b';
      assert (a + b)[|a + b| - 1] == b[|b| - 1];
      CalculateTotalAppend(a, b');
    }
  }

  predicate ItemConsistent(item: LineItem)
  {
    item.total == item.quantity * item.unitPrice
  }

  /** When every line's total is its quantity times its unit price, the
      invoice total is what the items charge. */
  lemma {:induction false} TotalIsCharged(items: seq<LineItem>)
    requires forall i :: 0 <= i < |items| ==> ItemConsistent(items[i])
    ensures CalculateTotal(items) == Charged(items)
    decreases |items|
  {
    if items != [] {
      TotalIsCharged(items[1..]);
      CalculateTotalAppend([items[0]], items[1..]);
      assert [items[0]] + items[1..] == items;
      assert [items[0]][..0] == [];
    }
  }

  /** The stored amount agrees with the total of the lines, and each line
      agrees with its quantity and unit price. */
  predicate Consistent(inv: Invoice)
  {
    && (forall i :: 0 <= i < |inv.items| ==> ItemConsistent(inv.items[i]))
    && inv.amount == CalculateTotal(inv.items)
  }

  lemma TotalOfThree(items: seq<LineItem>)
    requires |items| == 3
    ensures CalculateTotal(items) == items[0].total + items[1].total + items[2].total
  {
    assert items[..2][..1] == items[..1] && items[..2][1] == items[1];
    assert items[..1][..0] == [] && items[..1][0] == items[0];
    assert CalculateTotal(items[..1]) == items[0].total;
  }

  lemma TotalOfFour(items: seq<LineItem>)
    requires |items| == 4
    ensures CalculateTotal(items) == items[0].total + items[1].total + items[2].total + items[3].total
  {
    assert items[..3][..2] == items[..2] && items[..3][2] == items[2];
    TotalOfThree(items[..3]);
  }

  /** Every sample invoice is consistent; for instance INV-1001 bills
      200 + 350 + 450 + 250 = 1250. */
  lemma SampleInvoicesConsistent()
    ensures forall i :: 0 <= i < |Invoices| ==> Consistent(Invoices[i])
    ensures CalculateTotal(Invoices[0].items) == 1250
  {
    TotalOfFour(Invoices[0].items);
    TotalOfThree(Invoices[1].items);
    TotalOfThree(Invoices[2].items);
    TotalOfThree(Invoices[3].items);
    TotalOfFour(Invoices[4].items);
  }

  lemma InvoiceIdsDistinct()
    ensures forall i, j :: 0 <= i < j < |Invoices| ==> Invoices[i].id != Invoices[j].id
  {
  }

  // ---------------------------------------------------------------------
  // Status rules

  function StatusBadge(s: InvoiceStatus): BadgeVariant
  {
    if s == Paid then Outline
    else if s == Pending then Default
    else if s == Overdue then Destructive
    else Secondary
  }

  /** Each status has its own badge. */
  lemma StatusBadgeInjective(s: InvoiceStatus, t: InvoiceStatus)
    ensures StatusBadge(s) == StatusBadge(t) <==> s == t
  {
  }

  const OverdueNote: string := "This invoice is overdue. Please process payment as soon as possible."
  const DuePrefix: string := "Payment is due by "

  /** The note under the badge in the details dialog, shown for unpaid invoices. */
  function PaymentNote(inv: Invoice): Option<string>
  {
    if inv.status == Paid then None
    else if inv.status == Overdue then Some(OverdueNote)
    else Some(DuePrefix + inv.dueDate)
  }

  /** Whether the dialog offers the "Mark as Paid" button. */
  predicate OffersMarkAsPaid(inv: Invoice)
  {
    inv.status != Paid
  }

  /** The note and the button come and go together, both exactly for unpaid
      invoices; the note of a pending or rejected invoice names its due date. */
  lemma NoteAndActionRules(inv: Invoice)
    ensures PaymentNote(inv).Some? <==> OffersMarkAsPaid(inv)
    ensures OffersMarkAsPaid(inv) <==> inv.status != Paid
    ensures inv.status == Overdue ==> PaymentNote(inv) == Some(OverdueNote)
    ensures inv.status == Pending || inv.status == Rejected ==>
              PaymentNote(inv).Some? && DuePrefix <= PaymentNote(inv).value
              && PaymentNote(inv).value[|DuePrefix|..] == inv.dueDate
  {
    if inv.status == Pending || inv.status == Rejected {
      assert (DuePrefix + inv.dueDate)[|DuePrefix|..] == inv.dueDate;
    }
  }

  // ---------------------------------------------------------------------
  // Page state

  /** The page's data: the constant invoice list, and the invoice whose
      details dialog is open, if any. */
  datatype BillingView = BillingView(invoices: seq<Invoice>, selected: Option<Invoice>)

  function InitialView(): BillingView
  {
    BillingView(Invoices, None)
  }

  /** "View" opens the details of an invoice. */
  function ShowDetails(v: BillingView, inv: Invoice): BillingView
  {
    v.(selected := Some(inv))
  }

  /** `handleMarkAsPaid`: a notification is shown (not modelled) and the
      dialog closes; no invoice is touched. */
  function MarkAsPaid(v: BillingView, inv: Invoice): BillingView
  {
    v.(selected := None)
  }

  /** Marking an invoice as paid closes the dialog and keeps every invoice as
      it was: reopening an unpaid invoice offers "Mark as Paid" again. */
  lemma MarkAsPaidKeepsInvoices(v: BillingView, i: nat)
    requires i < |v.invoices|
    ensures MarkAsPaid(ShowDetails(v, v.invoices[i]), v.invoices[i]).selected == None
    ensures MarkAsPaid(ShowDetails(v, v.invoices[i]), v.invoices[i]).invoices == v.invoices
    ensures var after := MarkAsPaid(ShowDetails(v, v.invoices[i]), v.invoices[i]);
            OffersMarkAsPaid(v.invoices[i]) ==> OffersMarkAsPaid(ShowDetails(after, after.invoices[i]).selected.value)
  {
  }
}

// Vendor invoices: reconciling claims against validated charges, and what is owed per vendor.
module Invoices {
  import opened Common

  const TOLERANCE := 0.01

  datatype LineStatus = Pending | Matched | Variance | Disputed | ApprovedLine

  datatype Line = Line(invoice: int, trip: int, claimed: real, approved: Option<real>, variance: Option<real>,
                       status: LineStatus, reason: Option<string>)

  datatype InvoiceStatus = Draft | Submitted | UnderReview | Approved | InDispute | Paid

  datatype PaymentStatus = Unpaid | PartiallyPaid | FullyPaid

  datatype Invoice = Invoice(
    vendor: int, corporate: int, status: InvoiceStatus,
    claimedTotal: Option<real>, validatedTotal: Option<real>,
    paymentStatus: PaymentStatus, paidAmount: Option<real>)

  datatype Error = NotFound | CorporateOnly | NoLines | UnresolvedDisputes

  function Abs(x: real): real { if x < 0.0 then -x else x }

  function ValueOr(x: Option<real>, default: real): real {
    if x.Some? then x.value else default
  }

  // A line for a claim, given what the trip's charge says is payable.
  function Reconciled(invoice: int, trip: int, claimed: real, payable: Option<real>): Line {
    if payable.None? then Line(invoice, trip, claimed, None, None, Pending, None)
    else if Abs(payable.value - claimed) <= TOLERANCE then Line(invoice, trip, claimed, payable, None, Matched, None)
    else Line(invoice, trip, claimed, payable, Some(claimed - payable.value), Variance, None)
  }

  // ---- Totals over an invoice's lines ----

  function ClaimedTotal(lines: seq<Line>, invoice: int): real {
    if lines == [] then 0.0
    else ClaimedTotal(lines[..|lines| - 1], invoice) + if Last(lines).invoice == invoice then Last(lines).claimed else 0.0
  }

  // A line that was not validated counts as claimed.
  function ValidatedTotal(lines: seq<Line>, invoice: int): real {
    if lines == [] then 0.0
    else
      var l := Last(lines);
      ValidatedTotal(lines[..|lines| - 1], invoice) + if l.invoice == invoice then ValueOr(l.approved, l.claimed) else 0.0
  }

  function ApprovedTotal(lines: seq<Line>, invoice: int): real {
    if lines == [] then 0.0
    else
      var l := Last(lines);
      ApprovedTotal(lines[..|lines| - 1], invoice) + if l.invoice == invoice then ValueOr(l.approved, 0.0) else 0.0
  }

  function VarianceTotal(lines: seq<Line>, invoice: int): real {
    if lines == [] then 0.0
    else
      var l := Last(lines);
      VarianceTotal(lines[..|lines| - 1], invoice) + if l.invoice == invoice then ValueOr(l.variance, 0.0) else 0.0
  }

  // The lines validated without a recorded variance: those that came within the tolerance.
  function MatchedCount(lines: seq<Line>, invoice: int): nat {
    if lines == [] then 0
    else
      var l := Last(lines);
      MatchedCount(lines[..|lines| - 1], invoice) + if l.invoice == invoice && l.approved.Some? && l.variance.None? then 1 else 0
  }

  // The amounts of the line are consistent, whatever became of its status.
  predicate Sound(l: Line) {
    match (l.approved, l.variance)
    case (None, None) => true
    case (None, Some(_)) => false
    case (Some(a), None) => Abs(a - l.claimed) <= TOLERANCE
    case (Some(a), Some(v)) => v == l.claimed - a && Abs(v) > TOLERANCE
  }

  ghost predicate AllSound(lines: seq<Line>) {
    forall k | 0 <= k < |lines| :: Sound(lines[k])
  }

  // What claims exceed validated amounts by is the recorded variance, up to one tolerance for
  // each line that was matched.
  lemma {:induction false} GapIsVariance(lines: seq<Line>, invoice: int)
    requires AllSound(lines)
    ensures Abs(ClaimedTotal(lines, invoice) - ValidatedTotal(lines, invoice) - VarianceTotal(lines, invoice))
            <= TOLERANCE * MatchedCount(lines, invoice) as real
  {
    if lines != [] {
      var init, l := lines[..|lines| - 1], Last(lines);
      GapIsVariance(init, invoice);
      assert Sound(l);
    }
  }

  // ---- Runs ----

  datatype Step =
    | AddStep(invoice: int, trip: int, claimed: real, payable: Option<real>)
    | DisputeStep(line: int, reason: string)
    | ApproveStep(line: int)

  function Apply(lines: seq<Line>, step: Step): seq<Line> {
    match step
    case AddStep(invoice, trip, claimed, payable) => lines + [Reconciled(invoice, trip, claimed, payable)]
    case DisputeStep(id, reason) =>
      if 0 <= id < |lines| then lines[id := lines[id].(status := Disputed, reason := Some(reason))] else lines
    case ApproveStep(id) => if 0 <= id < |lines| then lines[id := lines[id].(status := ApprovedLine)] else lines
  }

  function Run(lines: seq<Line>, steps: seq<Step>): seq<Line>
    decreases |steps|
  {
    if steps == [] then lines else Run(Apply(lines, steps[0]), steps[1..])
  }

  lemma {:induction false} RunKeepsSound(lines: seq<Line>, steps: seq<Step>)
    requires AllSound(lines)
    ensures AllSound(Run(lines, steps))
    decreases |steps|
  {
    if steps != [] { RunKeepsSound(Apply(lines, steps[0]), steps[1..]); }
  }

  lemma ReconciliationBound(steps: seq<Step>, invoice: int)
    ensures var lines := Run([], steps);
            Abs(ClaimedTotal(lines, invoice) - ValidatedTotal(lines, invoice) - VarianceTotal(lines, invoice))
            <= TOLERANCE * MatchedCount(lines, invoice) as real
  {
    RunKeepsSound([], steps);
    GapIsVariance(Run([], steps), invoice);
  }

  // A claim exactly one tolerance over what is payable.
  function OneOver(invoice: int): Step { AddStep(invoice, 0, 100.01, Some(100.0)) }

  // The bound is sharp: n claims, each one tolerance over, leave a gap of n tolerances.
  lemma {:induction false} BoundIsReached(invoice: int, steps: seq<Step>)
    requires forall k | 0 <= k < |steps| :: steps[k] == OneOver(invoice)
    ensures var lines := Run([], steps);
            && MatchedCount(lines, invoice) == |steps| && VarianceTotal(lines, invoice) == 0.0
            && ClaimedTotal(lines, invoice) - ValidatedTotal(lines, invoice) == TOLERANCE * |steps| as real
  {
    RunPush([], steps);
    if steps != [] {
      BoundIsReached(invoice, steps[..|steps| - 1]);
      assert Last(steps) == OneOver(invoice);
      var init := Run([], steps[..|steps| - 1]);
      assert (init + [Last(Run([], steps))])[..|init|] == init;
    }
  }

  lemma {:induction false} RunPush(lines: seq<Line>, steps: seq<Step>)
    ensures steps != [] ==> Run(lines, steps) == Apply(Run(lines, steps[..|steps| - 1]), Last(steps))
    decreases |steps|
  {
    if |steps| > 1 {
      RunPush(Apply(lines, steps[0]), steps[1..]);
      assert steps[1..][..|steps| - 2] == steps[..|steps| - 1][1..];
    }
  }

  predicate SameAmounts(l: Line, l': Line) {
    l'.(status := l.status, reason := l.reason) == l
  }

  // Disputing or approving a line moves no amount; lines are only ever added.
  ghost predicate AmountsKept(lines: seq<Line>, lines': seq<Line>) {
    && |lines| <= |lines'|
    && forall k | 0 <= k < |lines| :: SameAmounts(lines[k], lines'[k])
  }

  lemma {:induction false} SameTotals(lines: seq<Line>, lines': seq<Line>, invoice: int)
    requires AmountsKept(lines, lines') && |lines| == |lines'|
    ensures ClaimedTotal(lines', invoice) == ClaimedTotal(lines, invoice)
    ensures ValidatedTotal(lines', invoice) == ValidatedTotal(lines, invoice)
  {
    if lines != [] {
      var n := |lines| - 1;
      assert SameAmounts(lines[n], lines'[n]);
      forall k | 0 <= k < n ensures SameAmounts(lines[..n][k], lines'[..n][k]) {}
      SameTotals(lines[..n], lines'[..n], invoice);
    }
  }

  // The totals stored on an invoice are those of its first lines, as many as it had when it was
  // last submitted.
  ghost predicate TotalsOf(i: Invoice, id: int, lines: seq<Line>, m: nat) {
    && m <= |lines|
    && i.claimedTotal == Some(ClaimedTotal(lines[..m], id))
    && i.validatedTotal == Some(ValidatedTotal(lines[..m], id))
  }

  ghost predicate StoredTotals(i: Invoice, id: int, lines: seq<Line>) {
    i.claimedTotal.Some? || i.validatedTotal.Some? || i.status == Submitted ==> exists m :: TotalsOf(i, id, lines, m)
  }

  lemma TotalsStay(i: Invoice, id: int, lines: seq<Line>, lines': seq<Line>)
    requires StoredTotals(i, id, lines) && AmountsKept(lines, lines')
    ensures StoredTotals(i, id, lines')
  {
    if exists m :: TotalsOf(i, id, lines, m) {
      var m: nat :| TotalsOf(i, id, lines, m);
      forall k | 0 <= k < m ensures SameAmounts(lines[..m][k], lines'[..m][k]) {}
      SameTotals(lines[..m], lines'[..m], id);
      assert TotalsOf(i, id, lines', m);
    }
  }

  ghost predicate Consistent(invoices: seq<Invoice>, lines: seq<Line>) {
    AllSound(lines) && forall id | 0 <= id < |invoices| :: StoredTotals(invoices[id], id, lines)
  }

  // The invoice as submitting it leaves it.
  function TotalledUp(i: Invoice, id: int, lines: seq<Line>): Invoice {
    i.(status := Submitted, claimedTotal := Some(ClaimedTotal(lines, id)), validatedTotal := Some(ValidatedTotal(lines, id)))
  }

  // So what a submitted invoice claims over what was validated is explained by variances too.
  lemma SubmittedGapIsVariance(invoices: seq<Invoice>, lines: seq<Line>, id: int) returns (m: nat)
    requires Consistent(invoices, lines) && 0 <= id < |invoices| && invoices[id].status == Submitted
    ensures m <= |lines| && invoices[id].claimedTotal.Some? && invoices[id].validatedTotal.Some?
    ensures Abs(invoices[id].claimedTotal.value - invoices[id].validatedTotal.value - VarianceTotal(lines[..m], id))
            <= TOLERANCE * MatchedCount(lines[..m], id) as real
  {
    assert StoredTotals(invoices[id], id, lines);
    m :| TotalsOf(invoices[id], id, lines, m);
    GapIsVariance(lines[..m], id);
  }

  // ---- What is owed per vendor ----

  // An invoice as the payables query returns it, its approved line amounts added up.
  datatype Billed = Billed(vendor: int, approved: real, paid: real)

  function ApprovedOf(b: Billed): real { b.approved }

  function PaidOf(b: Billed): real { b.paid }

  function CountOf(b: Billed): real { 1.0 }

  function Sum(billed: seq<Billed>, amount: Billed -> real): real {
    if billed == [] then 0.0 else Sum(billed[..|billed| - 1], amount) + amount(Last(billed))
  }

  function SumFor(billed: seq<Billed>, amount: Billed -> real, vendor: int): real {
    if billed == [] then 0.0
    else SumFor(billed[..|billed| - 1], amount, vendor) + if Last(billed).vendor == vendor then amount(Last(billed)) else 0.0
  }

  function SumOver(billed: seq<Billed>, amount: Billed -> real, vendors: seq<int>): real {
    if vendors == [] then 0.0
    else SumOver(billed, amount, vendors[..|vendors| - 1]) + SumFor(billed, amount, Last(vendors))
  }

  lemma {:induction false} NothingBilled(amount: Billed -> real, vendors: seq<int>)
    ensures SumOver([], amount, vendors) == 0.0
  {
    if vendors != [] { NothingBilled(amount, vendors[..|vendors| - 1]); }
  }

  // One more invoice counts once, for its own vendor.
  lemma {:induction false} OneMoreInvoice(billed: seq<Billed>, b: Billed, amount: Billed -> real, vendors: seq<int>)
    requires NoDuplicates(vendors)
    ensures SumOver(billed + [b], amount, vendors)
            == SumOver(billed, amount, vendors) + if b.vendor in vendors then amount(b) else 0.0
  {
    if vendors != [] {
      var init, v := vendors[..|vendors| - 1], Last(vendors);
      OneMoreInvoice(billed, b, amount, init);
      assert (billed + [b])[..|billed|] == billed;
      assert vendors == init + [v];
      assert b.vendor in vendors <==> b.vendor in init || b.vendor == v;
    }
  }

  // Split by vendor, the amounts still add up to the whole.
  lemma {:induction false} VendorsAddUp(billed: seq<Billed>, amount: Billed -> real, vendors: seq<int>)
    requires NoDuplicates(vendors) && forall b :: b in billed ==> b.vendor in vendors
    ensures SumOver(billed, amount, vendors) == Sum(billed, amount)
  {
    if billed == [] {
      NothingBilled(amount, vendors);
    } else {
      var init := billed[..|billed| - 1];
      assert billed == init + [Last(billed)];
      VendorsAddUp(init, amount, vendors);
      OneMoreInvoice(init, Last(billed), amount, vendors);
    }
  }

  datatype Payable = Payable(vendor: int, approvedTotal: real, paidTotal: real, invoiceCount: nat, outstanding: real)

  // The row says what filtering by its vendor and adding up would say.
  ghost predicate RowIs(row: Payable, billed: seq<Billed>, vendor: int) {
    && row.vendor == vendor
    && row.approvedTotal == SumFor(billed, ApprovedOf, vendor)
    && row.paidTotal == SumFor(billed, PaidOf, vendor)
    && row.invoiceCount as real == SumFor(billed, CountOf, vendor)
    && row.outstanding == row.approvedTotal - row.paidTotal
  }

  // The vendors in the order of their first invoice.
  function Vendors(billed: seq<Billed>): seq<int> {
    if billed == [] then []
    else
      var init, v := billed[..|billed| - 1], Last(billed).vendor;
      if v in Vendors(init) then Vendors(init) else Vendors(init) + [v]
  }

  // Every vendor with an invoice is listed, and only once.
  lemma {:induction false} VendorsListed(billed: seq<Billed>)
    ensures NoDuplicates(Vendors(billed))
    ensures forall b :: b in billed ==> b.vendor in Vendors(billed)
  {
    if billed != [] {
      var init := billed[..|billed| - 1];
      VendorsListed(init);
      assert billed == init + [Last(billed)];
    }
  }

  function ApprovedSum(rows: seq<Payable>): real {
    if rows == [] then 0.0 else ApprovedSum(rows[..|rows| - 1]) + Last(rows).approvedTotal
  }

  function OutstandingSum(rows: seq<Payable>): real {
    if rows == [] then 0.0 else OutstandingSum(rows[..|rows| - 1]) + Last(rows).outstanding
  }

  ghost predicate RowsAre(rows: seq<Payable>, billed: seq<Billed>, vendors: seq<int>) {
    |rows| == |vendors| && forall k | 0 <= k < |rows| :: RowIs(rows[k], billed, vendors[k])
  }

  lemma {:induction false} RowsSum(rows: seq<Payable>, billed: seq<Billed>, vendors: seq<int>)
    requires RowsAre(rows, billed, vendors)
    ensures ApprovedSum(rows) == SumOver(billed, ApprovedOf, vendors)
    ensures OutstandingSum(rows) == SumOver(billed, ApprovedOf, vendors) - SumOver(billed, PaidOf, vendors)
  {
    if rows != [] {
      var n := |rows| - 1;
      assert RowIs(rows[n], billed, vendors[n]);
      RowsSum(rows[..n], billed, vendors[..n]);
    }
  }

  // Nothing billed is lost or counted twice: the rows together owe what all invoices together do.
  lemma PayablesAreConserved(rows: seq<Payable>, billed: seq<Billed>)
    requires RowsAre(rows, billed, Vendors(billed))
    ensures ApprovedSum(rows) == Sum(billed, ApprovedOf)
    ensures OutstandingSum(rows) == Sum(billed, ApprovedOf) - Sum(billed, PaidOf)
  {
    RowsSum(rows, billed, Vendors(billed));
    VendorsListed(billed);
    VendorsAddUp(billed, ApprovedOf, Vendors(billed));
    VendorsAddUp(billed, PaidOf, Vendors(billed));
  }

  // The corporate's submitted and approved invoices among the first n.
  function BilledTo(invoices: seq<Invoice>, lines: seq<Line>, corporate: int, n: nat): seq<Billed>
    requires n <= |invoices|
  {
    if n == 0 then []
    else
      var init, i := BilledTo(invoices, lines, corporate, n - 1), invoices[n - 1];
      if i.corporate == corporate && (i.status == Approved || i.status == Submitted)
      then init + [Billed(i.vendor, ApprovedTotal(lines, n - 1), ValueOr(i.paidAmount, 0.0))]
      else init
  }

  // ---- The same sums over the lines and invoices themselves ----

  ghost predicate Counts(i: Invoice, corporate: int, vendor: int) {
    i.corporate == corporate && i.vendor == vendor && (i.status == Submitted || i.status == Approved)
  }

  ghost function ApprovedAmount(l: Line): real {
    if l.approved.None? then 0.0 else l.approved.value
  }

  // What is approved on the lines of the vendor's invoices that count, among the first n.
  ghost function ApprovedOnLines(invoices: seq<Invoice>, lines: seq<Line>, corporate: int, vendor: int, n: int): real
    requires n <= |invoices|
  {
    if lines == [] then 0.0
    else
      var l := Last(lines);
      ApprovedOnLines(invoices, lines[..|lines| - 1], corporate, vendor, n)
      + if 0 <= l.invoice < n && Counts(invoices[l.invoice], corporate, vendor) then ApprovedAmount(l) else 0.0
  }

  ghost function PaidOnInvoices(invoices: seq<Invoice>, corporate: int, vendor: int, n: nat): real
    requires n <= |invoices|
  {
    if n == 0 then 0.0
    else
      var i := invoices[n - 1];
      PaidOnInvoices(invoices, corporate, vendor, n - 1)
      + if Counts(i, corporate, vendor) && i.paidAmount.Some? then i.paidAmount.value else 0.0
  }

  ghost function CountedInvoices(invoices: seq<Invoice>, corporate: int, vendor: int, n: nat): nat
    requires n <= |invoices|
  {
    if n == 0 then 0
    else CountedInvoices(invoices, corporate, vendor, n - 1) + if Counts(invoices[n - 1], corporate, vendor) then 1 else 0
  }

  lemma {:induction false} OneInvoiceMore(invoices: seq<Invoice>, lines: seq<Line>, corporate: int, vendor: int, n: nat)
    requires 0 < n <= |invoices|
    ensures ApprovedOnLines(invoices, lines, corporate, vendor, n)
         == ApprovedOnLines(invoices, lines, corporate, vendor, n - 1)
            + if Counts(invoices[n - 1], corporate, vendor) then ApprovedTotal(lines, n - 1) else 0.0
  {
    if lines != [] { OneInvoiceMore(invoices, lines[..|lines| - 1], corporate, vendor, n); }
  }

  lemma {:induction false} NoInvoicesNothingApproved(invoices: seq<Invoice>, lines: seq<Line>, corporate: int, vendor: int)
    ensures ApprovedOnLines(invoices, lines, corporate, vendor, 0) == 0.0
  {
    if lines != [] { NoInvoicesNothingApproved(invoices, lines[..|lines| - 1], corporate, vendor); }
  }

  lemma SumForPush(billed: seq<Billed>, b: Billed, amount: Billed -> real, vendor: int)
    ensures SumFor(billed + [b], amount, vendor) == SumFor(billed, amount, vendor) + if b.vendor == vendor then amount(b) else 0.0
  {
    assert (billed + [b])[..|billed|] == billed;
  }

  lemma {:induction false} BilledExactly(invoices: seq<Invoice>, lines: seq<Line>, corporate: int, vendor: int, n: nat)
    requires n <= |invoices|
    ensures var billed := BilledTo(invoices, lines, corporate, n);
            && SumFor(billed, ApprovedOf, vendor) == ApprovedOnLines(invoices, lines, corporate, vendor, n)
            && SumFor(billed, PaidOf, vendor) == PaidOnInvoices(invoices, corporate, vendor, n)
            && SumFor(billed, CountOf, vendor) == CountedInvoices(invoices, corporate, vendor, n) as real
  {
    hide SumFor, ApprovedOnLines, ApprovedTotal;
    if n == 0 {
      NoInvoicesNothingApproved(invoices, lines, corporate, vendor);
      NothingToSum(vendor);
    } else {
      BilledExactly(invoices, lines, corporate, vendor, n - 1);
      OneInvoiceMore(invoices, lines, corporate, vendor, n);
      var before, i := BilledTo(invoices, lines, corporate, n - 1), invoices[n - 1];
      var b := Billed(i.vendor, ApprovedTotal(lines, n - 1), ValueOr(i.paidAmount, 0.0));
      SumForPush(before, b, ApprovedOf, vendor);
      SumForPush(before, b, PaidOf, vendor);
      SumForPush(before, b, CountOf, vendor);
    }
  }

  lemma NothingToSum(vendor: int)
    ensures forall amount :: SumFor([], amount, vendor) == 0.0
  {
  }

  lemma {:induction false} BilledVendors(invoices: seq<Invoice>, lines: seq<Line>, corporate: int, vendor: int, n: nat)
    requires n <= |invoices|
    ensures (exists k :: 0 <= k < |BilledTo(invoices, lines, corporate, n)| && BilledTo(invoices, lines, corporate, n)[k].vendor == vendor)
       <==> CountedInvoices(invoices, corporate, vendor, n) > 0
  {
    if n > 0 {
      BilledVendors(invoices, lines, corporate, vendor, n - 1);
      var before, billed := BilledTo(invoices, lines, corporate, n - 1), BilledTo(invoices, lines, corporate, n);
      hide ApprovedTotal;
      if Counts(invoices[n - 1], corporate, vendor) {
        assert billed[|before|].vendor == vendor;
      }
      forall k | 0 <= k < |before| ensures billed[k] == before[k] {}
    }
  }

  // The row says what the vendor's counting invoices and their lines add up to.
  ghost predicate RowAddsUp(row: Payable, invoices: seq<Invoice>, lines: seq<Line>, corporate: int) {
    && row.approvedTotal == ApprovedOnLines(invoices, lines, corporate, row.vendor, |invoices|)
    && row.paidTotal == PaidOnInvoices(invoices, corporate, row.vendor, |invoices|)
    && row.invoiceCount == CountedInvoices(invoices, corporate, row.vendor, |invoices|) > 0
    && row.outstanding == row.approvedTotal - row.paidTotal
  }

  lemma RowsAddUp(rows: seq<Payable>, invoices: seq<Invoice>, lines: seq<Line>, corporate: int)
    requires var billed := BilledTo(invoices, lines, corporate, |invoices|); RowsAre(rows, billed, Vendors(billed))
    ensures forall k | 0 <= k < |rows| :: RowAddsUp(rows[k], invoices, lines, corporate)
    ensures forall j, k | 0 <= j < k < |rows| :: rows[j].vendor != rows[k].vendor
    ensures forall v | CountedInvoices(invoices, corporate, v, |invoices|) > 0 :: exists k :: 0 <= k < |rows| && rows[k].vendor == v
  {
    var billed := BilledTo(invoices, lines, corporate, |invoices|);
    VendorsListed(billed);
    forall k | 0 <= k < |rows| ensures rows[k].vendor == Vendors(billed)[k] && RowAddsUp(rows[k], invoices, lines, corporate) {
      assert RowIs(rows[k], billed, Vendors(billed)[k]);
      VendorIsBilled(billed, Vendors(billed)[k]);
      BilledExactly(invoices, lines, corporate, rows[k].vendor, |invoices|);
      BilledVendors(invoices, lines, corporate, rows[k].vendor, |invoices|);
    }
    forall v | CountedInvoices(invoices, corporate, v, |invoices|) > 0 ensures exists k :: 0 <= k < |rows| && rows[k].vendor == v {
      BilledVendors(invoices, lines, corporate, v, |invoices|);
      var b :| 0 <= b < |billed| && billed[b].vendor == v;
      assert billed[b] in billed;
      var k :| 0 <= k < |Vendors(billed)| && Vendors(billed)[k] == v;
      assert rows[k].vendor == v;
    }
  }

  lemma {:induction false} VendorIsBilled(billed: seq<Billed>, vendor: int)
    requires vendor in Vendors(billed)
    ensures exists k :: 0 <= k < |billed| && billed[k].vendor == vendor
  {
    var n := |billed| - 1;
    if billed[n].vendor != vendor {
      VendorIsBilled(billed[..n], vendor);
      var k :| 0 <= k < n && billed[..n][k].vendor == vendor;
      assert billed[k].vendor == vendor;
    }
  }

  // ---- The service ----

  class InvoiceService {
    var invoices: seq<Invoice>
    var lines: seq<Line>

    constructor ()
      ensures invoices == [] && lines == [] && Consistent(invoices, lines)
    {
      invoices, lines := [], [];
    }

    method CreateInvoice(corporate: int, vendor: int) returns (id: nat)
      requires Consistent(invoices, lines)
      modifies this
      ensures id == |old(invoices)| && lines == old(lines)
      ensures invoices == old(invoices) + [Invoice(vendor, corporate, Draft, None, None, Unpaid, None)]
      ensures Consistent(invoices, lines)
    {
      id := |invoices|;
      invoices := invoices + [Invoice(vendor, corporate, Draft, None, None, Unpaid, None)];
    }

    ghost predicate Owns(actor: int, id: int)
      reads this
    {
      0 <= id < |invoices| && (invoices[id].corporate == actor || invoices[id].vendor == actor)
    }

    ghost predicate OwnsLine(actor: int, id: int)
      reads this
    {
      0 <= id < |lines| && Owns(actor, lines[id].invoice)
    }

    lemma LinesMoveOn(lines': seq<Line>)
      requires Consistent(invoices, lines) && AmountsKept(lines, lines') && AllSound(lines')
      ensures Consistent(invoices, lines')
    {
      forall id | 0 <= id < |invoices| ensures StoredTotals(invoices[id], id, lines') {
        TotalsStay(invoices[id], id, lines, lines');
      }
    }

    lemma InvoiceMovesOn(id: nat, i: Invoice)
      requires Consistent(invoices, lines) && id < |invoices|
      requires i.claimedTotal == invoices[id].claimedTotal && i.validatedTotal == invoices[id].validatedTotal
      requires i.status == Submitted ==> invoices[id].status == Submitted
      ensures Consistent(invoices[id := i], lines)
    {
      assert StoredTotals(invoices[id], id, lines);
      if exists m :: TotalsOf(invoices[id], id, lines, m) {
        var m: nat :| TotalsOf(invoices[id], id, lines, m);
        assert TotalsOf(i, id, lines, m);
      }
    }

    lemma InvoiceSubmitted(id: nat)
      requires Consistent(invoices, lines) && id < |invoices|
      ensures Consistent(invoices[id := TotalledUp(invoices[id], id, lines)], lines)
    {
      assert lines[..|lines|] == lines;
      assert TotalsOf(TotalledUp(invoices[id], id, lines), id, lines, |lines|);
    }

    method AddLine(actor: int, id: int, trip: int, claimed: real, charges: map<int, real>) returns (error: Option<Error>)
      requires Consistent(invoices, lines)
      modifies this
      ensures invoices == old(invoices) && error == (if old(Owns(actor, id)) then None else Some(NotFound))
      ensures lines == if error.Some? then old(lines)
                       else Apply(old(lines), AddStep(id, trip, claimed, if trip in charges then Some(charges[trip]) else None))
      ensures error.None? ==>
                && |lines| == |old(lines)| + 1 && old(lines) <= lines
                && var l := Last(lines);
                   && l.invoice == id && l.trip == trip && l.claimed == claimed && l.reason == None
                   && (if trip !in charges then l.approved == None && l.variance == None && l.status == Pending
                       else if claimed - 0.01 <= charges[trip] <= claimed + 0.01
                         then l.approved == Some(charges[trip]) && l.variance == None && l.status == Matched
                       else l.approved == Some(charges[trip]) && l.variance == Some(claimed - charges[trip]) && l.status == Variance)
      ensures Consistent(invoices, lines)
    {
      if !(0 <= id < |invoices|) { return Some(NotFound); }
      if invoices[id].corporate != actor && invoices[id].vendor != actor { return Some(NotFound); }
      var status := Pending;
      var approved, variance := None, None;
      if trip in charges {
        var validated := charges[trip];
        var diff := Abs(validated - claimed);
        if diff <= TOLERANCE {
          status, approved := Matched, Some(validated);
        } else {
          status, approved, variance := Variance, Some(validated), Some(claimed - validated);
        }
      }
      var more := lines + [Line(id, trip, claimed, approved, variance, status, None)];
      LinesMoveOn(more);
      lines := more;
      error := None;
    }

    method DisputeLine(actor: int, id: int, reason: string) returns (error: Option<Error>)
      requires Consistent(invoices, lines)
      modifies this
      ensures invoices == old(invoices) && error == (if old(OwnsLine(actor, id)) then None else Some(NotFound))
      ensures lines == if error.Some? then old(lines) else Apply(old(lines), DisputeStep(id, reason))
      ensures error.None? ==> lines == old(lines)[id := old(lines)[id].(status := Disputed, reason := Some(reason))]
      ensures Consistent(invoices, lines)
    {
      if !(0 <= id < |lines|) || !(0 <= lines[id].invoice < |invoices|) { return Some(NotFound); }
      var invoice := invoices[lines[id].invoice];
      if invoice.corporate != actor && invoice.vendor != actor { return Some(NotFound); }
      var updated := lines[id := lines[id].(status := Disputed, reason := Some(reason))];
      LinesMoveOn(updated);
      lines := updated;
      error := None;
    }

    method ApproveLine(actor: int, id: int) returns (error: Option<Error>)
      requires Consistent(invoices, lines)
      modifies this
      ensures invoices == old(invoices)
      ensures error == (if !old(OwnsLine(actor, id)) then Some(NotFound)
                        else if invoices[old(lines)[id].invoice].corporate != actor then Some(CorporateOnly)
                        else None)
      ensures lines == if error.Some? then old(lines) else Apply(old(lines), ApproveStep(id))
      ensures error.None? ==> lines == old(lines)[id := old(lines)[id].(status := ApprovedLine)]
      ensures Consistent(invoices, lines)
    {
      if !(0 <= id < |lines|) || !(0 <= lines[id].invoice < |invoices|) { return Some(NotFound); }
      var invoice := invoices[lines[id].invoice];
      if invoice.corporate != actor && invoice.vendor != actor { return Some(NotFound); }
      if invoice.corporate != actor { return Some(CorporateOnly); }
      var updated := lines[id := lines[id].(status := ApprovedLine)];
      LinesMoveOn(updated);
      lines := updated;
      error := None;
    }

    method Submit(actor: int, id: int) returns (error: Option<Error>)
      requires Consistent(invoices, lines)
      modifies this
      ensures lines == old(lines)
      ensures error == (if !old(Owns(actor, id)) then Some(NotFound)
                        else if forall k | 0 <= k < |lines| :: lines[k].invoice != id then Some(NoLines)
                        else None)
      ensures invoices == if error.Some? then old(invoices)
                          else old(invoices)[id := TotalledUp(old(invoices)[id], id, lines)]
      ensures error.None? ==>
                invoices[id] == old(invoices)[id].(status := Submitted, claimedTotal := Some(ClaimedTotal(lines, id)),
                                                   validatedTotal := Some(ValidatedTotal(lines, id)))
      ensures error.None? ==>
                Abs(invoices[id].claimedTotal.value - invoices[id].validatedTotal.value - VarianceTotal(lines, id))
                <= TOLERANCE * MatchedCount(lines, id) as real
      ensures Consistent(invoices, lines)
    {
      if !(0 <= id < |invoices|) { return Some(NotFound); }
      if invoices[id].corporate != actor && invoices[id].vendor != actor { return Some(NotFound); }
      assert AllSound(lines);
      hide Consistent, AllSound, Abs, VarianceTotal, MatchedCount;
      var count := 0;
      var claimedTotal, validatedTotal := 0.0, 0.0;
      for k := 0 to |lines|
        invariant count > 0 <==> exists j | 0 <= j < k :: lines[j].invoice == id
        invariant claimedTotal == ClaimedTotal(lines[..k], id) && validatedTotal == ValidatedTotal(lines[..k], id)
        invariant count >= 0 && lines == old(lines) && invoices == old(invoices)
      {
        assert lines[..k + 1] == lines[..k] + [lines[k]];
        if lines[k].invoice == id {
          count := count + 1;
          claimedTotal := claimedTotal + lines[k].claimed;
          validatedTotal := validatedTotal + ValueOr(lines[k].approved, lines[k].claimed);
        }
      }
      if count == 0 { return Some(NoLines); }
      assert lines[..|lines|] == lines;
      GapIsVariance(lines, id);
      InvoiceSubmitted(id);
      invoices := invoices[id := invoices[id].(
        status := Submitted, claimedTotal := Some(claimedTotal), validatedTotal := Some(validatedTotal))];
      error := None;
    }

    method Approve(actor: int, id: int) returns (error: Option<Error>)
      requires Consistent(invoices, lines)
      modifies this
      ensures lines == old(lines)
      ensures error == (if !old(Owns(actor, id)) then Some(NotFound)
                        else if old(invoices)[id].corporate != actor then Some(CorporateOnly)
                        else if exists k | 0 <= k < |lines| :: lines[k].invoice == id && lines[k].status == Disputed
                          then Some(UnresolvedDisputes)
                        else None)
      ensures invoices == if error.Some? then old(invoices) else old(invoices)[id := old(invoices)[id].(status := Approved)]
      ensures Consistent(invoices, lines)
    {
      if !(0 <= id < |invoices|) { return Some(NotFound); }
      if invoices[id].corporate != actor && invoices[id].vendor != actor { return Some(NotFound); }
      if invoices[id].corporate != actor { return Some(CorporateOnly); }
      if exists k | 0 <= k < |lines| :: lines[k].invoice == id && lines[k].status == Disputed {
        return Some(UnresolvedDisputes);
      }
      InvoiceMovesOn(id, invoices[id].(status := Approved));
      invoices := invoices[id := invoices[id].(status := Approved)];
      error := None;
    }

    // An amount that is not given leaves the recorded one as it was.
    method RecordPayment(actor: int, id: int, status: PaymentStatus, paid: Option<real>) returns (error: Option<Error>)
      requires Consistent(invoices, lines)
      modifies this
      ensures lines == old(lines)
      ensures error == (if !old(Owns(actor, id)) then Some(NotFound)
                        else if old(invoices)[id].corporate != actor then Some(CorporateOnly)
                        else None)
      ensures invoices == if error.Some? then old(invoices)
                          else old(invoices)[id := old(invoices)[id].(
                            paymentStatus := status, paidAmount := if paid.Some? then paid else old(invoices)[id].paidAmount)]
      ensures Consistent(invoices, lines)
    {
      if !(0 <= id < |invoices|) { return Some(NotFound); }
      if invoices[id].corporate != actor && invoices[id].vendor != actor { return Some(NotFound); }
      if invoices[id].corporate != actor { return Some(CorporateOnly); }
      var updated := invoices[id].(paymentStatus := status);
      if paid.Some? { updated := updated.(paidAmount := paid); }
      InvoiceMovesOn(id, updated);
      invoices := invoices[id := updated];
      error := None;
    }

    // One row per vendor, in the order of first appearance, kept in a map while looping; beside
    // each row, the vendor's name if the vendor is known.
    method VendorPayablesSummary(corporate: int, directory: map<int, string>)
      returns (rows: seq<Payable>, names: seq<Option<string>>)
      ensures var billed := BilledTo(invoices, lines, corporate, |invoices|);
              && RowsAre(rows, billed, Vendors(billed))
              && ApprovedSum(rows) == Sum(billed, ApprovedOf)
              && OutstandingSum(rows) == Sum(billed, ApprovedOf) - Sum(billed, PaidOf)
      ensures forall k | 0 <= k < |rows| :: RowAddsUp(rows[k], invoices, lines, corporate)
      ensures forall j, k | 0 <= j < k < |rows| :: rows[j].vendor != rows[k].vendor
      ensures forall v | CountedInvoices(invoices, corporate, v, |invoices|) > 0 :: exists k :: 0 <= k < |rows| && rows[k].vendor == v
      ensures |names| == |rows|
      ensures forall k | 0 <= k < |rows| ::
                names[k] == if rows[k].vendor in directory then Some(directory[rows[k].vendor]) else None
    {
      var billed := BilledTo(invoices, lines, corporate, |invoices|);
      rows := SummariseByVendor(billed);
      PayablesAreConserved(rows, billed);
      RowsAddUp(rows, invoices, lines, corporate);
      names := seq(|rows|, k requires 0 <= k < |rows| =>
        if rows[k].vendor in directory then Some(directory[rows[k].vendor]) else None);
    }
  }

  // The row under construction, before what is outstanding is worked out.
  ghost predicate Entry(row: Payable, billed: seq<Billed>, vendor: int) {
    && row.vendor == vendor
    && row.approvedTotal == SumFor(billed, ApprovedOf, vendor)
    && row.paidTotal == SumFor(billed, PaidOf, vendor)
    && row.invoiceCount as real == SumFor(billed, CountOf, vendor)
  }

  ghost predicate Entries(byVendor: map<int, Payable>, billed: seq<Billed>) {
    && (forall v :: v in Vendors(billed) <==> v in byVendor)
    && (forall v | v in byVendor :: Entry(byVendor[v], billed, v))
  }

  function NewEntry(vendor: int): Payable { Payable(vendor, 0.0, 0.0, 0, 0.0) }

  lemma {:induction false} NotBilledYet(billed: seq<Billed>, vendor: int)
    requires vendor !in Vendors(billed)
    ensures Entry(NewEntry(vendor), billed, vendor)
  {
    if billed != [] {
      assert Last(billed) in billed;
      NotBilledYet(billed[..|billed| - 1], vendor);
    }
  }

  function Bumped(entry: Payable, b: Billed): Payable {
    entry.(approvedTotal := entry.approvedTotal + b.approved, paidTotal := entry.paidTotal + b.paid,
           invoiceCount := entry.invoiceCount + 1)
  }

  lemma EntryGrows(entry: Payable, billed: seq<Billed>, b: Billed, vendor: int)
    requires Entry(entry, billed, vendor)
    ensures Entry(if b.vendor == vendor then Bumped(entry, b) else entry, billed + [b], vendor)
  {
    assert (billed + [b])[..|billed|] == billed;
  }

  lemma EntriesGrow(byVendor: map<int, Payable>, billed: seq<Billed>, b: Billed)
    requires Entries(byVendor, billed)
    ensures var entry := if b.vendor in byVendor then byVendor[b.vendor] else NewEntry(b.vendor);
            Entries(byVendor[b.vendor := Bumped(entry, b)], billed + [b])
    ensures Vendors(billed + [b]) == Vendors(billed) + if b.vendor in byVendor then [] else [b.vendor]
  {
    assert (billed + [b])[..|billed|] == billed;
    if b.vendor !in byVendor { NotBilledYet(billed, b.vendor); }
    var entry := if b.vendor in byVendor then byVendor[b.vendor] else NewEntry(b.vendor);
    EntryGrows(entry, billed, b, b.vendor);
    hide Entry;
    forall v | v in byVendor && v != b.vendor ensures Entry(byVendor[v], billed + [b], v) {
      EntryGrows(byVendor[v], billed, b, v);
    }
  }

  // The finished rows, with what is outstanding worked out.
  function Finished(byVendor: map<int, Payable>, order: seq<int>): (r: seq<Payable>)
    requires forall k | 0 <= k < |order| :: order[k] in byVendor
    ensures |r| == |order|
  {
    seq(|order|, k requires 0 <= k < |order| =>
      var row := byVendor[order[k]]; row.(outstanding := row.approvedTotal - row.paidTotal))
  }

  lemma FinishedRows(byVendor: map<int, Payable>, billed: seq<Billed>)
    requires Entries(byVendor, billed)
    ensures forall k | 0 <= k < |Vendors(billed)| :: Vendors(billed)[k] in byVendor
    ensures RowsAre(Finished(byVendor, Vendors(billed)), billed, Vendors(billed))
  {
    var order := Vendors(billed);
    forall k | 0 <= k < |order| ensures order[k] in byVendor && Entry(byVendor[order[k]], billed, order[k]) {
      var v := order[k];
      assert v in order;
      assert v in Vendors(billed) <==> v in byVendor;
    }
    hide Vendors, SumFor, Entries;
    forall k | 0 <= k < |order| ensures RowIs(Finished(byVendor, order)[k], billed, order[k]) {
      assert Entry(byVendor[order[k]], billed, order[k]);
    }
  }

  method SummariseByVendor(billed: seq<Billed>) returns (rows: seq<Payable>)
    ensures RowsAre(rows, billed, Vendors(billed))
  {
    var order: seq<int> := [];
    var byVendor: map<int, Payable> := map[];
    assert Vendors([]) == [] && Entries(byVendor, []);
    hide SumFor, Vendors, Entries, RowsAre;
    for k := 0 to |billed|
      invariant order == Vendors(billed[..k]) && Entries(byVendor, billed[..k])
    {
      var b := billed[k];
      assert billed[..k + 1] == billed[..k] + [b];
      EntriesGrow(byVendor, billed[..k], b);
      var entry := if b.vendor in byVendor then byVendor[b.vendor] else Payable(b.vendor, 0.0, 0.0, 0, 0.0);
      entry := entry.(approvedTotal := entry.approvedTotal + b.approved,
                      paidTotal := entry.paidTotal + b.paid, invoiceCount := entry.invoiceCount + 1);
      if b.vendor !in byVendor { order := order + [b.vendor]; }
      byVendor := byVendor[b.vendor := entry];
    }
    assert billed[..|billed|] == billed;
    FinishedRows(byVendor, billed);
    rows := Finished(byVendor, order);
  }
}

// Runs that bring the hotel books to a drawer nobody can close.

module HotelBooksRuns {
  import opened Common
  import opened Sums
  import opened HotelBooks
  import opened HotelBooksInvariant
  import opened HotelBooksPreservation
  import opened HotelBooksRetries

  lemma RunNone(s: Books)
    ensures Run(s, []) == s
  {
  }

  lemma {:induction false} RunPrefix(s: Books, calls: seq<Call>, n: nat)
    requires n < |calls|
    ensures Run(s, calls[..n + 1]) == Apply(Run(s, calls[..n]), calls[n]).0
  {
    assert calls[..n + 1][..n] == calls[..n];
  }

  lemma {:induction false} RunOne(s: Books, calls: seq<Call>, c: Call)
    ensures Run(s, calls + [c]) == Apply(Run(s, calls), c).0
  {
    assert (calls + [c])[..|calls|] == calls;
  }

  lemma {:induction false} RunInTwo(s: Books, a: seq<Call>, b: seq<Call>)
    ensures Run(s, a + b) == Run(Run(s, a), b)
  {
    if b == [] {
      assert a + b == a;
    } else {
      assert (a + b)[..|a + b| - 1] == a + b[..|b| - 1];
      RunInTwo(s, a, b[..|b| - 1]);
    }
  }

  // ---- a hotel with one booking of a thousand rupees and one open drawer ----

  const SETUP := [AddPropertyCall(0, true), AddBookingCall(0, 0, 1, 1000, 0), OpenShiftCall(0, 0, 0, 0, "first", 0)]

  function Drawer(key: string): Shift { Shift(0, 0, 0, 0, true, 0, None, 1, key, None, None) }

  function Hotel(entries: seq<Entry>, shifts: seq<Shift>): Books {
    Books([Property(0, true, true, None, 0)], [Booking(0, true, Reserved, 0, 1, 1000, 0, 0, false)], entries, shifts, [], [], [])
  }

  lemma AfterSetup()
    ensures Run(EMPTY, SETUP) == Hotel([], [Drawer("first")])
  {
    assert SETUP[..0] == [] && SETUP[..3] == SETUP;
    RunNone(EMPTY);
    RunPrefix(EMPTY, SETUP, 0);
    RunPrefix(EMPTY, SETUP, 1);
    RunPrefix(EMPTY, SETUP, 2);
    hide Run;
    assert Run(EMPTY, SETUP[..2]) == Hotel([], []);
  }

  function PayCall(amount: nat, key: string): Call { PostCall(0, 0, 0, true, Payment, Cash, amount, "", key, 0) }

  function Paid(amount: nat, key: string): Entry {
    Entry(0, Payment, Cash, amount, 0, Some(0), None, key, PostRequest(0, Payment, Cash, amount, ""))
  }

  lemma TakesPayment(entries: seq<Entry>, amount: nat, key: string)
    requires 1 <= amount && EntryByKey(entries, key).None? && FolioSize(entries, 0) <= MAX_FOLIO_ENTRIES
    requires amount <= 1000 + NetCharges(entries, 0) - NetPayments(entries, 0) <= MAX_AMOUNT
    ensures var s := Hotel(entries, [Drawer("first")]);
            Apply(s, PayCall(amount, key)) == (s.(entries := entries + [Paid(amount, key)]), EntryReply(|entries|))
  {
    hide FolioSize, NetCharges, NetPayments, EntryByKey;
    var s := Hotel(entries, [Drawer("first")]);
    assert OpenShiftOf(s.shifts, 0, 0) == Some(0);
    assert Balance(s, 0) == 1000 + NetCharges(entries, 0) - NetPayments(entries, 0);
  }

  // ---- more payments than a drawer may hold ----

  // As many one-rupee payments as wanted, each under a key of its own: its number in tallies.
  function Tally(n: nat): string { seq(n, _ => 'x') }

  function Rupees(n: nat): seq<Call> { if n == 0 then [] else Rupees(n - 1) + [PayCall(1, Tally(n))] }

  function PaidRupees(n: nat): seq<Entry> { if n == 0 then [] else PaidRupees(n - 1) + [Paid(1, Tally(n))] }

  lemma {:induction false} RupeesPaid(n: nat)
    ensures var es := PaidRupees(n);
            && |es| == n && (forall i :: 0 <= i < n ==> es[i] == Paid(1, Tally(i + 1)))
            && NetCharges(es, 0) == 0 && NetPayments(es, 0) == n && FolioSize(es, 0) == n && ShiftSize(es, 0) == n
  {
    if n > 0 {
      RupeesPaid(n - 1);
      var before, e := PaidRupees(n - 1), Paid(1, Tally(n));
      ChargesAppend(before, e, 0);
      PaymentsAppend(before, e, 0);
      SumSame(FolioTerm(before, 0), FolioTerm(before + [e], 0), n - 1);
      SumSame(ShiftTerm(before, 0), ShiftTerm(before + [e], 0), n - 1);
    }
  }

  lemma TalliesDiffer(n: nat)
    ensures EntryByKey(PaidRupees(n), Tally(n + 1)).None?
  {
    RupeesPaid(n);
    forall i | 0 <= i < n ensures PaidRupees(n)[i].key != Tally(n + 1) {
      assert |Tally(i + 1)| == i + 1;
    }
  }

  lemma TakesRupee(n: nat)
    requires 1 <= n <= MAX_FOLIO_ENTRIES + 1
    ensures Apply(Hotel(PaidRupees(n - 1), [Drawer("first")]), PayCall(1, Tally(n))).0 == Hotel(PaidRupees(n), [Drawer("first")])
  {
    RupeesPaid(n - 1);
    TalliesDiffer(n - 1);
    TakesPayment(PaidRupees(n - 1), 1, Tally(n));
  }

  lemma {:induction false} RupeesAreTaken(n: nat)
    requires n <= MAX_FOLIO_ENTRIES + 1
    ensures Run(Hotel([], [Drawer("first")]), Rupees(n)) == Hotel(PaidRupees(n), [Drawer("first")])
  {
    hide Apply;
    if n > 0 {
      RupeesAreTaken(n - 1);
      TakesRupee(n);
      hide Run;
      RunOne(Hotel([], [Drawer("first")]), Rupees(n - 1), PayCall(1, Tally(n)));
    }
  }

  lemma {:induction false} OneRupeeTooMany()
    ensures var s := Run(EMPTY, SETUP + Rupees(MAX_FOLIO_ENTRIES + 1));
            Oversized(s, 0) && s.shifts[0].property == 0 && |s.properties| > 0 && s.properties[0].date == None
  {
    hide Run, PaidRupees;
    AfterSetup();
    RunInTwo(EMPTY, SETUP, Rupees(MAX_FOLIO_ENTRIES + 1));
    RupeesAreTaken(MAX_FOLIO_ENTRIES + 1);
    RupeesPaid(MAX_FOLIO_ENTRIES + 1);
  }

  // A hundred payments fit; the folio takes one more, and with it the drawer is never closed again and the property
  // never sees a nightly close, whatever follows.
  lemma {:induction false} OneRupeeTooManyStopsTheBooks(calls: seq<Call>)
    ensures var s' := Run(EMPTY, SETUP + Rupees(MAX_FOLIO_ENTRIES + 1) + calls);
            Oversized(s', 0) && |s'.properties| > 0 && s'.properties[0].date == None
  {
    var first := SETUP + Rupees(MAX_FOLIO_ENTRIES + 1);
    OneRupeeTooMany();
    RunInTwo(EMPTY, first, calls);
    ReachableBooksKeepInv(first);
    hide Run, Inv, Rupees, Oversized;
    OversizedDrawerStopsTheBooks(Run(EMPTY, first), calls, 0);
  }

  // ---- less cash than none ----

  // Five hundred rupees are taken and counted out; the payment is then undone while the next drawer is open and empty.
  const CORRECTION :=
    [PayCall(500, "paid"), CloseShiftCall(0, 0, 0, 1, 500, "counted"), OpenShiftCall(0, 0, 0, 0, "second", 0),
     ReverseCall(0, 0, 0, 0, "paid twice", "undone", 0)]

  function Counted(): Shift { Drawer("first").(open := false, closeKey := Some("counted"), closedBy := Some(0), declared := Some(500), version := 2) }

  function Undone(): Entry {
    Entry(0, Reversal, Cash, 500, 0, Some(1), Some(0), "undone", ReverseRequest(0, 0, "paid twice"))
  }

  lemma CashOfOnePayment()
    ensures var es := [Paid(500, "paid")];
            DrawerCash(es, 0) == 500 && DrawerCash(es, 1) == 0 && ShiftSize(es, 0) == 1 && FolioSize([], 0) == 0
            && NetCharges([], 0) == 0 && NetPayments([], 0) == 0
  {
    assert [] + [Paid(500, "paid")] == [Paid(500, "paid")];
    DrawerAppend([], Paid(500, "paid"), 0);
    DrawerAppend([], Paid(500, "paid"), 1);
  }

  lemma CashOfTheCorrection()
    ensures DrawerCash([Paid(500, "paid"), Undone()], 1) == -500
  {
    CashOfOnePayment();
    assert [Paid(500, "paid")] + [Undone()] == [Paid(500, "paid"), Undone()];
    DrawerAppend([Paid(500, "paid")], Undone(), 1);
  }

  lemma PaysIn()
    ensures Apply(Hotel([], [Drawer("first")]), CORRECTION[0]).0 == Hotel([Paid(500, "paid")], [Drawer("first")])
  {
    CashOfOnePayment();
    assert [] + [Paid(500, "paid")] == [Paid(500, "paid")];
    TakesPayment([], 500, "paid");
  }

  lemma CountsOut()
    ensures Apply(Hotel([Paid(500, "paid")], [Drawer("first")]), CORRECTION[1]).0 == Hotel([Paid(500, "paid")], [Counted()])
  {
    CashOfOnePayment();
    hide DrawerCash, ShiftSize;
    assert ExpectedCash(Hotel([Paid(500, "paid")], [Drawer("first")]), 0) == 500;
  }

  lemma OpensAgain()
    ensures Apply(Hotel([Paid(500, "paid")], [Counted()]), CORRECTION[2]).0
            == Hotel([Paid(500, "paid")], [Counted(), Drawer("second")])
  {
    assert OpenShiftOf([Counted()], 0, 0).None?;
  }

  lemma Undoes()
    ensures Apply(Hotel([Paid(500, "paid")], [Counted(), Drawer("second")]), CORRECTION[3]).0
            == Hotel([Paid(500, "paid"), Undone()], [Counted(), Drawer("second")])
  {
    assert OpenShiftOf([Counted(), Drawer("second")], 0, 0) == Some(1);
    assert EntryByKey([Paid(500, "paid")], "undone").None?;
    assert !IsReversed([Paid(500, "paid")], 0);
    assert [Paid(500, "paid")] + [Undone()] == [Paid(500, "paid"), Undone()];
  }

  // The second drawer is to hold minus five hundred rupees: nobody can count that out, so no call closes it.
  lemma {:induction false} AfterCorrection()
    ensures Run(EMPTY, SETUP + CORRECTION) == Hotel([Paid(500, "paid"), Undone()], [Counted(), Drawer("second")])
  {
    hide Apply, Hotel;
    var s := Hotel([], [Drawer("first")]);
    AfterSetup();
    RunInTwo(EMPTY, SETUP, CORRECTION);
    assert CORRECTION[..0] == [] && CORRECTION[..4] == CORRECTION;
    RunNone(s);
    RunPrefix(s, CORRECTION, 0);
    RunPrefix(s, CORRECTION, 1);
    RunPrefix(s, CORRECTION, 2);
    RunPrefix(s, CORRECTION, 3);
    hide Run;
    PaysIn();
    CountsOut();
    OpensAgain();
    Undoes();
  }

  lemma {:induction false} CorrectionLeavesLessThanNothing()
    ensures var s := Run(EMPTY, SETUP + CORRECTION);
            && |s.shifts| == 2 && s.shifts[1].open && ExpectedCash(s, 1) == -500
            && forall c: Call :: c.CloseShiftCall? && c.shift == 1 ==> CloseShift(s, c).1.Refused?
  {
    hide Run, CloseShift, DrawerCash;
    AfterCorrection();
    CashOfTheCorrection();
    CannotBeCounted(Run(EMPTY, SETUP + CORRECTION));
  }

  lemma CannotBeCounted(s: Books)
    requires |s.shifts| == 2 && s.shifts[1].open && s.shifts[1].closeKey == None && ExpectedCash(s, 1) < 0
    ensures forall c: Call :: c.CloseShiftCall? && c.shift == 1 ==> CloseShift(s, c).1.Refused?
  {
  }
}

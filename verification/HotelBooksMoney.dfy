// What the amounts in the hotel books mean: balances, corrections, drawers and closed days.

module HotelBooksMoney {
  import opened Common
  import opened Sums
  import opened HotelBooks
  import opened HotelBooksInvariant
  import opened HotelBooksPreservation
  import opened HotelBooksHistory

  // ---- corrections ----

  // The entry table seen as a ledger of originals and their reversals.
  ghost predicate Ledger(es: seq<Entry>) {
    && Linked(es)
    && (forall i :: 0 <= i < |es| ==> if es[i].kind == Reversal then Mirrors(es, es[i]) else es[i].reversalOf == None)
    && (forall i, j :: 0 <= i < j < |es| && es[i].reversalOf.Some? ==> es[i].reversalOf != es[j].reversalOf)
  }

  lemma EntriesAreALedger(s: Books)
    requires EntriesOk(s)
    ensures Ledger(s.entries)
  {
    forall i | 0 <= i < |s.entries|
      ensures if s.entries[i].kind == Reversal then Mirrors(s.entries, s.entries[i]) else s.entries[i].reversalOf == None
    {
      assert EntryOk(s, s.entries, s.entries[i]);
    }
  }

  function Value(e: Entry, kind: EntryKind): int {
    if kind == Charge then Signed(e) else e.amount
  }

  function Net(es: seq<Entry>, b: nat, kind: EntryKind): int {
    if kind == Charge then NetCharges(es, b) else NetPayments(es, b)
  }

  // The originals of one kind that stand: those that no entry reverses.
  function StandingTerm(es: seq<Entry>, b: nat, kind: EntryKind): nat -> int {
    (i: nat) => if i < |es| && es[i].booking == b && es[i].kind == kind && !IsReversed(es, i) then Value(es[i], kind) else 0
  }

  function Standing(es: seq<Entry>, b: nat, kind: EntryKind): int { Sum(StandingTerm(es, b, kind), |es|) }

  lemma NetAppend(es: seq<Entry>, e: Entry, b: nat, kind: EntryKind)
    requires kind != Reversal && Linked(es) && Linked(es + [e])
    ensures Net(es + [e], b, kind) == Net(es, b, kind)
              + if e.booking != b then 0
                else if e.kind == kind then Value(e, kind)
                else if Reverses(es, e, kind) then -Value(e, kind) else 0
  {
    ChargesAppend(es, e, b);
    PaymentsAppend(es, e, b);
  }

  lemma ReversedAfterAppend(es: seq<Entry>, e: Entry, i: nat)
    requires Linked(es + [e]) && i <= |es|
    ensures IsReversed(es + [e], i) <==> IsReversed(es, i) || e.reversalOf == Some(i)
    ensures i == |es| ==> !IsReversed(es + [e], i)
  {
    var es' := es + [e];
    assert es'[|es|] == e;
    if IsReversed(es, i) {
      var j :| 0 <= j < |es| && es[j].reversalOf == Some(i);
      assert es'[j].reversalOf == Some(i);
    }
  }

  lemma StandingAppendOriginal(es: seq<Entry>, e: Entry, b: nat, kind: EntryKind)
    requires Ledger(es + [e]) && e.kind != Reversal
    ensures Standing(es + [e], b, kind) == Standing(es, b, kind) + if e.booking == b && e.kind == kind then Value(e, kind) else 0
  {
    var f, g := StandingTerm(es, b, kind), StandingTerm(es + [e], b, kind);
    forall i: nat | i < |es| ensures f(i) == g(i) {
      ReversedAfterAppend(es, e, i);
    }
    SumSame(f, g, |es|);
    ReversedAfterAppend(es, e, |es|);
  }

  lemma StandingAppendReversal(es: seq<Entry>, e: Entry, b: nat, kind: EntryKind)
    requires Ledger(es + [e]) && e.kind == Reversal && kind != Reversal
    ensures Standing(es + [e], b, kind) == Standing(es, b, kind) - if e.booking == b && Reverses(es, e, kind) then Value(e, kind) else 0
  {
    var es' := es + [e];
    assert es'[|es|] == e && Mirrors(es', e);
    var f, g, j := StandingTerm(es, b, kind), StandingTerm(es', b, kind), e.reversalOf.value;
    forall i: nat | i < |es| && i != j ensures f(i) == g(i) {
      ReversedAfterAppend(es, e, i);
    }
    ReversedAfterAppend(es, e, j);
    assert !IsReversed(es, j) by {
      forall k | 0 <= k < |es| ensures es[k].reversalOf != Some(j) {
        assert es'[k].reversalOf.Some? ==> es'[k].reversalOf != es'[|es|].reversalOf;
      }
    }
    SumChangedAt(f, g, j, |es|);
    assert g(|es|) == 0;
  }

  lemma LedgerPrefix(es: seq<Entry>, n: nat)
    requires Ledger(es) && n <= |es|
    ensures Ledger(es[..n])
  {
    var pre := es[..n];
    forall i | 0 <= i < n ensures if pre[i].kind == Reversal then Mirrors(pre, pre[i]) else pre[i].reversalOf == None {
      assert pre[i] == es[i];
      assert es[i].kind == Reversal ==> Mirrors(es, es[i]);
    }
  }

  // Folding every entry, reversals included, gives what the standing originals alone would give.
  lemma {:induction false} NetIsStanding(es: seq<Entry>, b: nat, kind: EntryKind)
    requires Ledger(es) && kind != Reversal
    ensures Net(es, b, kind) == Standing(es, b, kind)
  {
    if es != [] {
      var pre, e := es[..|es| - 1], es[|es| - 1];
      assert es == pre + [e];
      LedgerPrefix(es, |es| - 1);
      NetIsStanding(pre, b, kind);
      NetAppend(pre, e, b, kind);
      if e.kind == Reversal {
        StandingAppendReversal(pre, e, b, kind);
      } else {
        StandingAppendOriginal(pre, e, b, kind);
      }
    }
  }

  // In every run the balance of a folio is the booking's value and its standing charges,
  // less the online payment that was not refunded and its standing payments.
  lemma {:induction false} BalanceIsStandingEntries(calls: seq<Call>, b: nat)
    requires b < |Run(EMPTY, calls).bookings|
    ensures var s := Run(EMPTY, calls);
            var booking := s.bookings[b];
            Balance(s, b) == booking.total + Standing(s.entries, b, Charge)
                             - (if booking.refunds < booking.online then booking.online - booking.refunds else 0)
                             - Standing(s.entries, b, Payment)
  {
    var s := Run(EMPTY, calls);
    ReachableBooksKeepInv(calls);
    EntriesAreALedger(s);
    NetIsStanding(s.entries, b, Charge);
    NetIsStanding(s.entries, b, Payment);
  }

  // Each original is reversed at most once, by an entry with its amount and category; reversals are never reversed.
  lemma {:induction false} ReversalsMirrorOriginals(calls: seq<Call>, i: nat)
    requires i < |Run(EMPTY, calls).entries| && Run(EMPTY, calls).entries[i].kind == Reversal
    ensures var es := Run(EMPTY, calls).entries;
            && Mirrors(es, es[i]) && es[i].reversalOf.value < i
            && forall j :: 0 <= j < |es| && j != i ==> es[j].reversalOf != es[i].reversalOf
  {
    hide Run;
    ReachableBooksKeepInv(calls);
    EntriesAreALedger(Run(EMPTY, calls));
  }

  // ---- single postings ----

  lemma BalanceAppend(s: Books, e: Entry, b: nat)
    requires Linked(s.entries) && Linked(s.entries + [e]) && b < |s.bookings|
    ensures Balance(s.(entries := s.entries + [e]), b)
            == Balance(s, b) + if e.booking == b then ChargeEffect(s.entries, e) - PaymentEffect(s.entries, e) else 0
  {
    ChargesAppend(s.entries, e, b);
    PaymentsAppend(s.entries, e, b);
  }

  // A charge raises the balance by its amount; a payment lowers it by its amount and never below zero.
  lemma PostingMovesBalance(s: Books, c: Call)
    requires EntriesOk(s) && c.PostCall? && Post(s, c).0 != s
    ensures c.booking < |s.bookings|
    ensures Balance(Post(s, c).0, c.booking) == Balance(s, c.booking) + if c.kind == Charge then c.amount else -c.amount
    ensures c.kind == Payment ==> Balance(Post(s, c).0, c.booking) >= 0
    ensures forall b :: 0 <= b < |s.bookings| && b != c.booking ==> Balance(Post(s, c).0, b) == Balance(s, b)
  {
    var s' := Post(s, c).0;
    var e := s'.entries[|s.entries|];
    assert s' == s.(entries := s.entries + [e]);
    forall b: nat | b < |s.bookings|
      ensures Balance(s', b) == Balance(s, b) + if e.booking == b then ChargeEffect(s.entries, e) - PaymentEffect(s.entries, e) else 0
    {
      BalanceAppend(s, e, b);
    }
  }

  // A discount lowers the balance by its amount and never below zero.
  lemma DiscountMovesBalance(s: Books, c: Call)
    requires EntriesOk(s) && c.DiscountCall? && ApplyDiscount(s, c).0 != s
    ensures c.booking < |s.bookings|
    ensures 0 <= Balance(ApplyDiscount(s, c).0, c.booking) == Balance(s, c.booking) - c.amount == c.expected - c.amount
  {
    var s' := ApplyDiscount(s, c).0;
    var e := s'.entries[|s.entries|];
    assert s' == s.(entries := s.entries + [e]);
    BalanceAppend(s, e, c.booking);
  }

  lemma {:induction false} SplitMovesBalanceUpTo(s: Books, c: Call, shift: nat, n: nat)
    requires Linked(s.entries) && c.SplitCall? && ValidAllocations(c.allocations) && ActiveStay(s, c.partner, c.booking)
    requires n <= |c.allocations|
    ensures Linked(s.entries + SplitEntries(s, c, shift, n))
    ensures Balance(s.(entries := s.entries + SplitEntries(s, c, shift, n)), c.booking)
            == Balance(s, c.booking) - AllocationTotal(c.allocations[..n])
  {
    if n == 0 {
      assert s.entries + SplitEntries(s, c, shift, 0) == s.entries;
    } else {
      SplitMovesBalanceUpTo(s, c, shift, n - 1);
      var before := s.(entries := s.entries + SplitEntries(s, c, shift, n - 1));
      var e := SplitEntry(s, c, shift, n - 1);
      BalanceAppend(before, e, c.booking);
      assert before.entries + [e] == s.entries + SplitEntries(s, c, shift, n);
      assert c.allocations[..n][..n - 1] == c.allocations[..n - 1];
    }
  }

  // A split payment settles the folio exactly.
  lemma SplitPaymentSettles(s: Books, c: Call)
    requires EntriesOk(s) && c.SplitCall? && SplitPayment(s, c).0 != s
    ensures c.booking < |s.bookings| && Balance(SplitPayment(s, c).0, c.booking) == 0
  {
    var shift := OpenShiftOf(s.shifts, s.bookings[c.booking].property, c.actor).value;
    SplitMovesBalanceUpTo(s, c, shift, |c.allocations|);
    assert c.allocations[..|c.allocations|] == c.allocations;
  }

  // A correction undoes its original: the balance is what it would be had the original never been posted.
  lemma ReversalUndoesOriginal(s: Books, c: Call)
    requires EntriesOk(s) && c.ReverseCall? && Reverse(s, c).0 != s
    ensures c.booking < |s.bookings| && c.entry < |s.entries| && s.entries[c.entry].kind != Reversal
    ensures var o := s.entries[c.entry];
            Balance(Reverse(s, c).0, c.booking) == Balance(s, c.booking) - if o.kind == Charge then Signed(o) else 0 - o.amount
    ensures IsReversed(Reverse(s, c).0.entries, c.entry) && !IsReversed(s.entries, c.entry)
  {
    var s' := Reverse(s, c).0;
    var e := s'.entries[|s.entries|];
    assert s' == s.(entries := s.entries + [e]);
    BalanceAppend(s, e, c.booking);
  }

  // ---- drawers ----

  function CashWeight(s: Books): nat -> int {
    (i: nat) => if i < |s.entries| then CashEffect(s.entries, s.entries[i]) else 0
  }

  function DrawerOf(s: Books): nat -> int {
    (i: nat) => if i < |s.entries| && s.entries[i].shift.Some? then s.entries[i].shift.value else -1
  }

  // What the cashier counted out over what was counted in.
  function CountedMovement(s: Books, picked: nat -> bool): nat -> int {
    (k: nat) => if k < |s.shifts| && picked(k) && s.shifts[k].declared.Some? then s.shifts[k].declared.value - s.shifts[k].opening else 0
  }

  function DrawerPostings(s: Books, picked: nat -> bool): nat -> int {
    InPicked(CashWeight(s), DrawerOf(s), picked, |s.shifts|)
  }

  // For any set of closed shifts, the cash counted over the floats is the cash posted to those shifts.
  lemma ClosedDrawersReconcile(s: Books, picked: nat -> bool)
    requires EntriesOk(s) && ShiftsOk(s)
    requires forall k: nat :: picked(k) ==> k < |s.shifts| && !s.shifts[k].open
    ensures Sum(CountedMovement(s, picked), |s.shifts|) == Sum(DrawerPostings(s, picked), |s.entries|)
  {
    var weight, owner, m, n := CashWeight(s), DrawerOf(s), |s.shifts|, |s.entries|;
    forall k: nat | k < m ensures CountedMovement(s, picked)(k) == PickedGroup(weight, owner, picked, n)(k) {
      if picked(k) {
        assert ShiftOk(s, k);
        SumSame(CashTerm(s.entries, k), OfGroup(weight, owner, k), n);
        assert GroupTotal(weight, owner, k, n) == DrawerCash(s.entries, k);
      }
    }
    SumSame(CountedMovement(s, picked), PickedGroup(weight, owner, picked, n), m);
    SumByGroup(weight, owner, picked, m, n);
  }

  function IsClosed(s: Books): nat -> bool {
    (k: nat) => k < |s.shifts| && !s.shifts[k].open
  }

  // Over every run: cash counted in all closed drawers, less their floats, equals the cash posted to them.
  lemma {:induction false} CashIsConserved(calls: seq<Call>)
    ensures var s := Run(EMPTY, calls);
            Sum(CountedMovement(s, IsClosed(s)), |s.shifts|) == Sum(DrawerPostings(s, IsClosed(s)), |s.entries|)
  {
    var s := Run(EMPTY, calls);
    ReachableBooksKeepInv(calls);
    ClosedDrawersReconcile(s, IsClosed(s));
  }

  // Every payment and payment reversal sits in exactly one drawer of its own property; nothing else does.
  lemma {:induction false} PaymentsSitInOneDrawer(calls: seq<Call>, i: nat)
    requires i < |Run(EMPTY, calls).entries|
    ensures var s := Run(EMPTY, calls);
            var e := s.entries[i];
            && e.booking < |s.bookings|
            && (e.shift.Some? <==> e.kind == Payment || Reverses(s.entries, e, Payment))
            && (e.shift.Some? ==> e.shift.value < |s.shifts| && s.shifts[e.shift.value].property == s.bookings[e.booking].property)
  {
    ReachableBooksKeepInv(calls);
    assert EntryOk(Run(EMPTY, calls), Run(EMPTY, calls).entries, Run(EMPTY, calls).entries[i]);
  }

  lemma {:induction false} SumBeyond(es: seq<Entry>, k: nat, n: nat)
    requires n >= |es|
    ensures Sum(CashTerm(es, k), n) == DrawerCash(es, k)
  {
    if n > |es| {
      SumBeyond(es, k, n - 1);
    }
  }

  // A closed drawer is never touched again: its row and its cash stay what they were at the close.
  lemma {:induction false} ClosedDrawersAreFrozen(s: Books, calls: seq<Call>, k: nat)
    requires Inv(s) && k < |s.shifts| && !s.shifts[k].open
    ensures var s' := Run(s, calls);
            k < |s'.shifts| && s'.shifts[k] == s.shifts[k] && DrawerCash(s'.entries, k) == DrawerCash(s.entries, k)
  {
    RunIsLater(s, calls);
    var s' := Run(s, calls);
    assert SameShift(s.shifts[k], s'.shifts[k]);
    var f, g := CashTerm(s.entries, k), CashTerm(s'.entries, k);
    forall i: nat | i < |s'.entries| ensures f(i) == g(i) {
      if i < |s.entries| {
        assert s'.entries[i] == s.entries[i];
      } else {
        assert YoungerEntry(s, s', s'.entries[i]);
      }
    }
    SumSame(f, g, |s'.entries|);
    SumBeyond(s.entries, k, |s'.entries|);
  }

  // ---- a closed day and its drawers ----

  // From a date on, an entry in a drawer of the property carries the drawer's own date.
  ghost predicate DrawersOnDate(s: Books, p: nat, from: int) {
    forall i :: 0 <= i < |s.entries| && s.entries[i].shift.Some? ==> DrawerOnDate(s, p, from, s.entries[i])
  }

  ghost predicate DrawerOnDate(s: Books, p: nat, from: int, e: Entry)
    requires e.shift.Some?
  {
    e.shift.value < |s.shifts|
    && var t := s.shifts[e.shift.value];
       t.property == p && (e.date >= from || t.date >= from) ==> e.date == t.date
  }

  // A call that is given the property's calendar day.
  predicate HasToday(c: Call) {
    || c.OpenShiftCall? || c.PostCall? || c.ReverseCall? || c.DiscountCall? || c.SplitCall? || c.PlaceOrderCall?
    || c.CloseDayCall? || c.ChangeStayCall?
  }

  // An entry in an open drawer, dated by the drawer's property at this call.
  ghost predicate EntersDrawer(s: Books, c: Call, e: Entry) {
    e.shift.Some? ==>
      && e.shift.value < |s.shifts| && s.shifts[e.shift.value].open
      && var p := s.shifts[e.shift.value].property;
         p < |s.properties| && HasToday(c) && e.date == OperationalDate(s.properties[p], c.today)
  }

  lemma SplitEntersDrawer(s: Books, c: Call, i: nat)
    requires c.SplitCall? && |s.entries| <= i < |SplitPayment(s, c).0.entries|
    ensures EntersDrawer(s, c, SplitPayment(s, c).0.entries[i])
  {
    var shift := OpenShiftOf(s.shifts, s.bookings[c.booking].property, c.actor).value;
    assert SplitPayment(s, c).0.entries[i] == SplitEntry(s, c, shift, i - |s.entries|);
  }

  lemma PostEntersDrawer(s: Books, c: Call, i: nat)
    requires c.PostCall? && |s.entries| <= i < |Post(s, c).0.entries|
    ensures EntersDrawer(s, c, Post(s, c).0.entries[i])
  {
  }

  lemma ReverseEntersDrawer(s: Books, c: Call, i: nat)
    requires c.ReverseCall? && |s.entries| <= i < |Reverse(s, c).0.entries|
    ensures EntersDrawer(s, c, Reverse(s, c).0.entries[i])
  {
  }

  lemma OthersEnterNoDrawer(s: Books, c: Call, i: nat)
    requires !c.SplitCall? && !c.PostCall? && !c.ReverseCall? && |s.entries| <= i < |Apply(s, c).0.entries|
    ensures Apply(s, c).0.entries[i].shift.None?
  {
  }

  lemma NewEntryIsOnDrawerDate(s: Books, c: Call, i: nat)
    requires |s.entries| <= i < |Apply(s, c).0.entries|
    ensures EntersDrawer(s, c, Apply(s, c).0.entries[i])
  {
    hide SplitPayment, Post, Reverse, EntersDrawer;
    if c.SplitCall? {
      SplitEntersDrawer(s, c, i);
    } else if c.PostCall? {
      PostEntersDrawer(s, c, i);
    } else if c.ReverseCall? {
      ReverseEntersDrawer(s, c, i);
    } else {
      OthersEnterNoDrawer(s, c, i);
      NoDrawerToEnter(s, c, Apply(s, c).0.entries[i]);
    }
  }

  lemma NoDrawerToEnter(s: Books, c: Call, e: Entry)
    requires e.shift.None?
    ensures EntersDrawer(s, c, e)
  {
  }

  lemma {:induction false} ApplyKeepsDrawersOnDate(s: Books, c: Call, p: nat, from: int)
    requires Inv(s) && DrawersOnDate(s, p, from) && p < |s.properties| && s.properties[p].date.Some?
    ensures DrawersOnDate(Apply(s, c).0, p, from)
  {
    var s' := Apply(s, c).0;
    ApplyIsLater(s, c);
    forall i | 0 <= i < |s'.entries| && s'.entries[i].shift.Some? ensures DrawerOnDate(s', p, from, s'.entries[i]) {
      var e := s'.entries[i];
      if i < |s.entries| {
        assert DrawerOnDate(s, p, from, s.entries[i]);
        assert SameShift(s.shifts[e.shift.value], s'.shifts[e.shift.value]);
      } else {
        NewEntryIsOnDrawerDate(s, c, i);
        assert OnDate(s, s.shifts[e.shift.value].property, s.shifts[e.shift.value].date);
        assert SameShift(s.shifts[e.shift.value], s'.shifts[e.shift.value]);
      }
    }
  }

  lemma {:induction false} RunKeepsDrawersOnDate(s: Books, calls: seq<Call>, p: nat, from: int)
    requires Inv(s) && DrawersOnDate(s, p, from) && p < |s.properties| && s.properties[p].date.Some?
    ensures DrawersOnDate(Run(s, calls), p, from)
  {
    if calls != [] {
      var before := calls[..|calls| - 1];
      RunKeepsDrawersOnDate(s, before, p, from);
      RunIsLater(s, before);
      assert LaterProperty(s.properties[p], Run(s, before).properties[p]);
      ApplyKeepsDrawersOnDate(Run(s, before), calls[|calls| - 1], p, from);
    }
  }

  // Cash postings of one property and date, whatever drawer they are in.
  function DayCash(s: Books, p: nat, date: int): nat -> int {
    (i: nat) => if i < |s.entries| && s.entries[i].booking < |s.bookings| && s.bookings[s.entries[i].booking].property == p
                   && s.entries[i].date == date
                then CashEffect(s.entries, s.entries[i]) else 0
  }

  // Drawers of one property opened on one date.
  function DayDrawers(s: Books, p: nat, date: int): nat -> bool {
    (k: nat) => k < |s.shifts| && s.shifts[k].property == p && s.shifts[k].date == date
  }

  lemma DayDrawersAreClosed(s: Books, p: nat, date: int)
    requires Inv(s) && p < |s.properties| && s.properties[p].date.Some? && date < s.properties[p].date.value
    ensures forall k: nat :: DayDrawers(s, p, date)(k) ==> k < |s.shifts| && !s.shifts[k].open
  {
    forall k: nat | DayDrawers(s, p, date)(k) ensures k < |s.shifts| && !s.shifts[k].open {
      assert s.shifts[k].open ==> OnDate(s, s.shifts[k].property, s.shifts[k].date);
    }
  }

  lemma DayCashIsInDayDrawers(s: Books, p: nat, from: int, date: int)
    requires EntriesOk(s) && DrawersOnDate(s, p, from) && from <= date
    ensures Sum(DayCash(s, p, date), |s.entries|) == Sum(DrawerPostings(s, DayDrawers(s, p, date)), |s.entries|)
  {
    var f, g := DayCash(s, p, date), DrawerPostings(s, DayDrawers(s, p, date));
    forall i: nat | i < |s.entries| ensures f(i) == g(i) {
      var e := s.entries[i];
      assert EntryOk(s, s.entries, e);
      if e.shift.Some? {
        assert DrawerOnDate(s, p, from, e);
        assert DrawerOf(s)(i) == e.shift.value;
      } else {
        assert CashEffect(s.entries, e) == 0;
      }
    }
    SumSame(f, g, |s.entries|);
  }

  // Take any books in which a date is stored for the property and nothing in a drawer is dated on or after it.
  // Then in every later state each day that has been closed since reconciles: the cash postings dated that day equal
  // the cash counted over the floats of the drawers opened that day.
  lemma {:induction false} ClosedDaysReconcileFrom(s: Books, calls: seq<Call>, p: nat, date: int)
    requires Inv(s) && p < |s.properties| && s.properties[p].date.Some?
    requires DrawersOnDate(s, p, s.properties[p].date.value)
    requires var s' := Run(s, calls);
             p < |s'.properties| && s'.properties[p].date.Some? && s.properties[p].date.value <= date < s'.properties[p].date.value
    ensures var s' := Run(s, calls);
            Sum(DayCash(s', p, date), |s'.entries|) == Sum(CountedMovement(s', DayDrawers(s', p, date)), |s'.shifts|)
  {
    hide Run;
    var s', from := Run(s, calls), s.properties[p].date.value;
    RunIsLater(s, calls);
    RunKeepsDrawersOnDate(s, calls, p, from);
    DayDrawersAreClosed(s', p, date);
    DayCashIsInDayDrawers(s', p, from, date);
    ClosedDrawersReconcile(s', DayDrawers(s', p, date));
  }
}

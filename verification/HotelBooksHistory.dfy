// What no later call can change: closed days, closed shifts, checked-out folios, finished orders, answered retries.

module HotelBooksHistory {
  import opened Common
  import opened Sums
  import opened StatusLogs
  import opened HotelBooks
  import opened HotelBooksInvariant
  import opened HotelBooksPreservation

  // An entry that is younger than s: not before the date then stored, only a correction if the guest had left,
  // and attached to no shift that was closed.
  ghost predicate YoungerEntry(s: Books, s': Books, e: Entry) {
    && e.booking < |s'.bookings|
    && (var p := s'.bookings[e.booking].property;
        p < |s.properties| && s.properties[p].date.Some? ==> e.date >= s.properties[p].date.value)
    && (e.booking < |s.bookings| && s.bookings[e.booking].stay == CheckedOut ==> e.kind == Reversal)
    && (e.shift.Some? && e.shift.value < |s.shifts| ==> s.shifts[e.shift.value].open)
  }

  ghost predicate SameOrder(o: Order, o': Order) {
    && o' == o.(status := o'.status, version := o'.version, folioEntry := o'.folioEntry)
    && (!ActiveOrder(o) ==> o' == o)
  }

  ghost predicate SameShift(t: Shift, t': Shift) {
    && t' == t.(open := t'.open, declared := t'.declared, closeKey := t'.closeKey, closedBy := t'.closedBy, version := t'.version)
    && (!t.open ==> t' == t)
  }

  ghost predicate LaterEntries(s: Books, s': Books) {
    && s.entries <= s'.entries
    && (forall i :: |s.entries| <= i < |s'.entries| ==> YoungerEntry(s, s', s'.entries[i]))
  }

  ghost predicate LaterRows(s: Books, s': Books) {
    && s.events <= s'.events && s.closes <= s'.closes
    && |s.orders| <= |s'.orders| && (forall i :: 0 <= i < |s.orders| ==> SameOrder(s.orders[i], s'.orders[i]))
    && |s.shifts| <= |s'.shifts| && (forall k :: 0 <= k < |s.shifts| ==> SameShift(s.shifts[k], s'.shifts[k]))
  }

  ghost predicate LaterProperty(p: Property, p': Property) {
    p'.partner == p.partner && (p.date.Some? ==> p'.date.Some? && p'.date.value >= p.date.value)
  }

  ghost predicate LaterBooking(b: Booking, b': Booking) {
    b'.property == b.property && (b.stay == CheckedOut ==> b'.stay == CheckedOut)
  }

  ghost predicate LaterPlaces(s: Books, s': Books) {
    && |s.properties| <= |s'.properties|
    && (forall p :: 0 <= p < |s.properties| ==> LaterProperty(s.properties[p], s'.properties[p]))
    && |s.bookings| <= |s'.bookings|
    && (forall b :: 0 <= b < |s.bookings| ==> LaterBooking(s.bookings[b], s'.bookings[b]))
  }

  ghost predicate Later(s: Books, s': Books) {
    LaterEntries(s, s') && LaterRows(s, s') && LaterPlaces(s, s')
  }

  lemma LaterTransitive(s: Books, s': Books, s'': Books)
    requires Later(s, s') && Later(s', s'') && Inv(s') && Inv(s'')
    ensures Later(s, s'')
  {
    forall i | |s.entries| <= i < |s''.entries| ensures YoungerEntry(s, s'', s''.entries[i]) {
      var e := s''.entries[i];
      assert EntryOk(s'', s''.entries, e);
      if i < |s'.entries| {
        assert s'.entries[i] == e && YoungerEntry(s, s', e);
      } else {
        assert YoungerEntry(s', s'', e);
      }
    }
    forall i | 0 <= i < |s.orders| ensures SameOrder(s.orders[i], s''.orders[i]) {
      assert SameOrder(s.orders[i], s'.orders[i]) && SameOrder(s'.orders[i], s''.orders[i]);
    }
    forall k | 0 <= k < |s.shifts| ensures SameShift(s.shifts[k], s''.shifts[k]) {
      assert SameShift(s.shifts[k], s'.shifts[k]) && SameShift(s'.shifts[k], s''.shifts[k]);
    }
    forall p | 0 <= p < |s.properties| ensures LaterProperty(s.properties[p], s''.properties[p]) {
      assert LaterProperty(s.properties[p], s'.properties[p]) && LaterProperty(s'.properties[p], s''.properties[p]);
    }
    forall b | 0 <= b < |s.bookings| ensures LaterBooking(s.bookings[b], s''.bookings[b]) {
      assert LaterBooking(s.bookings[b], s'.bookings[b]) && LaterBooking(s'.bookings[b], s''.bookings[b]);
    }
  }

  lemma MoveOrderIsLater(s: Books, c: Call)
    requires OrdersOk(s) && DatesOk(s) && c.MoveOrderCall?
    ensures Later(s, MoveOrder(s, c).0)
  {
    var s' := MoveOrder(s, c).0;
    if s' != s {
      var o := s.orders[c.order];
      assert OrderOk(s, o) && OnDate(s, o.property, o.date);
      assert LaterRows(s, s');
    }
  }

  lemma SplitIsLater(s: Books, c: Call)
    requires c.SplitCall?
    ensures Later(s, SplitPayment(s, c).0)
  {
    var s' := SplitPayment(s, c).0;
    if s' != s {
      var shift := OpenShiftOf(s.shifts, s.bookings[c.booking].property, c.actor).value;
      forall i | |s.entries| <= i < |s'.entries| ensures YoungerEntry(s, s', s'.entries[i]) {
        assert s'.entries[i] == SplitEntry(s, c, shift, i - |s.entries|);
      }
    }
  }

  lemma AppendIsLater(s: Books, e: Entry)
    requires YoungerEntry(s, s, e)
    ensures Later(s, s.(entries := s.entries + [e]))
  {
  }

  lemma PostingIsLater(s: Books, c: Call)
    requires c.PostCall? || c.ReverseCall? || c.DiscountCall?
    ensures Later(s, Apply(s, c).0)
  {
    var s' := Apply(s, c).0;
    if s' != s {
      AppendIsLater(s, s'.entries[|s.entries|]);
    }
  }

  lemma OpenShiftIsLater(s: Books, c: Call)
    requires c.OpenShiftCall?
    ensures Later(s, OpenShift(s, c).0)
  {
    var s' := OpenShift(s, c).0;
    assert s' == s.(shifts := s'.shifts) && s.shifts <= s'.shifts;
  }

  lemma CloseShiftIsLater(s: Books, c: Call)
    requires c.CloseShiftCall?
    ensures Later(s, CloseShift(s, c).0)
  {
    var s' := CloseShift(s, c).0;
    assert s' == s.(shifts := s'.shifts);
  }

  lemma CloseDayIsLater(s: Books, c: Call)
    requires c.CloseDayCall?
    ensures Later(s, CloseDay(s, c).0)
  {
    assert LaterEntries(s, CloseDay(s, c).0);
  }

  lemma PlaceOrderIsLater(s: Books, c: Call)
    requires c.PlaceOrderCall?
    ensures Later(s, PlaceOrder(s, c).0)
  {
    assert LaterEntries(s, PlaceOrder(s, c).0);
  }

  lemma ChangeStayIsLater(s: Books, c: Call)
    requires c.ChangeStayCall?
    ensures Later(s, ChangeStay(s, c).0)
  {
    var s' := ChangeStay(s, c).0;
    assert s' == s.(bookings := s'.bookings);
  }

  lemma EnvironmentIsLater(s: Books, c: Call)
    requires c.AddPropertyCall? || c.SetActiveCall? || c.AddBookingCall? || c.AmendBookingCall?
    ensures Later(s, Environment(s, c).0)
  {
    var s' := Environment(s, c).0;
    assert s' == s.(bookings := s'.bookings, properties := s'.properties);
  }

  lemma {:induction false} ApplyIsLater(s: Books, c: Call)
    requires Inv(s)
    ensures Later(s, Apply(s, c).0)
  {
    hide OrdersOk, DatesOk, Later, MoveOrder, SplitPayment, Post, Reverse, ApplyDiscount, OpenShift, CloseShift;
    hide CloseDay, PlaceOrder, ChangeStay, Environment;
    if c.MoveOrderCall? { MoveOrderIsLater(s, c); }
    else if c.SplitCall? { SplitIsLater(s, c); }
    else if c.PostCall? || c.ReverseCall? || c.DiscountCall? { PostingIsLater(s, c); }
    else if c.OpenShiftCall? { OpenShiftIsLater(s, c); }
    else if c.CloseShiftCall? { CloseShiftIsLater(s, c); }
    else if c.CloseDayCall? { CloseDayIsLater(s, c); }
    else if c.PlaceOrderCall? { PlaceOrderIsLater(s, c); }
    else if c.ChangeStayCall? { ChangeStayIsLater(s, c); }
    else { EnvironmentIsLater(s, c); }
  }

  lemma {:induction false} RunIsLater(s: Books, calls: seq<Call>)
    requires Inv(s)
    ensures Later(s, Run(s, calls)) && Inv(Run(s, calls))
  {
    hide Apply, Inv;
    if calls != [] {
      var before := Run(s, calls[..|calls| - 1]);
      RunIsLater(s, calls[..|calls| - 1]);
      ApplyIsLater(before, calls[|calls| - 1]);
      ApplyKeepsInv(before, calls[|calls| - 1]);
      LaterTransitive(s, before, Run(s, calls));
    }
  }

  // ---- closed days ----

  // The folio entries of one property with one business date, in the order they were posted.
  ghost function DayLedger(s: Books, p: nat, date: int, n: nat): seq<Entry>
    requires n <= |s.entries|
  {
    if n == 0 then []
    else
      var e := s.entries[n - 1];
      DayLedger(s, p, date, n - 1)
      + if e.booking < |s.bookings| && s.bookings[e.booking].property == p && e.date == date then [e] else []
  }

  lemma {:induction false} DayLedgerSame(s: Books, s': Books, p: nat, date: int, n: nat)
    requires EntriesOk(s) && Later(s, s') && n <= |s.entries|
    ensures DayLedger(s', p, date, n) == DayLedger(s, p, date, n)
  {
    if n > 0 {
      DayLedgerSame(s, s', p, date, n - 1);
      assert EntryOk(s, s.entries, s.entries[n - 1]);
    }
  }

  lemma {:induction false} DayLedgerGrowsAfter(s: Books, s': Books, p: nat, date: int, n: nat)
    requires EntriesOk(s) && Later(s, s') && |s.entries| <= n <= |s'.entries|
    requires p < |s.properties| && s.properties[p].date.Some? && date < s.properties[p].date.value
    ensures DayLedger(s', p, date, n) == DayLedger(s, p, date, |s.entries|)
  {
    hide LaterRows, EntriesOk;
    if n == |s.entries| {
      DayLedgerSame(s, s', p, date, n);
    } else {
      DayLedgerGrowsAfter(s, s', p, date, n - 1);
      var e := s'.entries[n - 1];
      assert YoungerEntry(s, s', e);
      assert DayLedger(s', p, date, n) == DayLedger(s', p, date, n - 1) + [];
    }
  }

  // Once a day has been closed, its ledger and that of every earlier day never change again, whatever is called:
  // no charge, payment, discount, split payment, correction or service posting is ever dated into it.
  lemma {:induction false} ClosedDaysAreFrozen(s: Books, calls: seq<Call>, k: nat, date: int)
    requires Inv(s) && k < |s.closes| && date <= s.closes[k].date
    ensures var s', p := Run(s, calls), s.closes[k].property;
            DayLedger(s', p, date, |s'.entries|) == DayLedger(s, p, date, |s.entries|)
  {
    hide Run;
    RunIsLater(s, calls);
    var s' := Run(s, calls);
    DayLedgerGrowsAfter(s, s', s.closes[k].property, date, |s'.entries|);
  }

  // An entry of today: its date is the one stored for the property, if one is.
  ghost predicate DatedNow(s: Books, e: Entry) {
    && e.booking < |s.bookings| && s.bookings[e.booking].property < |s.properties|
    && (s.properties[s.bookings[e.booking].property].date.Some? ==>
          s.properties[s.bookings[e.booking].property].date.value == e.date)
  }

  lemma MovedOrderEntryDate(s: Books, c: Call, i: nat)
    requires OrdersOk(s) && DatesOk(s) && c.MoveOrderCall? && |s.entries| <= i < |MoveOrder(s, c).0.entries|
    ensures DatedNow(s, MoveOrder(s, c).0.entries[i])
  {
    var o := s.orders[c.order];
    assert OrderOk(s, o) && OnDate(s, o.property, o.date);
  }

  lemma SplitEntryDate(s: Books, c: Call, i: nat)
    requires c.SplitCall? && |s.entries| <= i < |SplitPayment(s, c).0.entries|
    ensures DatedNow(s, SplitPayment(s, c).0.entries[i])
  {
    var shift := OpenShiftOf(s.shifts, s.bookings[c.booking].property, c.actor).value;
    assert SplitPayment(s, c).0.entries[i] == SplitEntry(s, c, shift, i - |s.entries|);
  }

  lemma PostedEntryDate(s: Books, c: Call, i: nat)
    requires c.PostCall? || c.ReverseCall? || c.DiscountCall?
    requires |s.entries| <= i < |Apply(s, c).0.entries|
    ensures DatedNow(s, Apply(s, c).0.entries[i])
  {
  }

  lemma OtherCallsAddNoEntries(s: Books, c: Call)
    requires !c.PostCall? && !c.ReverseCall? && !c.DiscountCall? && !c.SplitCall? && !c.MoveOrderCall?
    ensures Apply(s, c).0.entries == s.entries
  {
  }

  // Whatever puts an entry on a folio, a service posting included, dates it with the date stored for the property then.
  lemma {:induction false} NewEntriesCarryTheStoredDate(s: Books, c: Call, i: nat)
    requires Inv(s) && |s.entries| <= i < |Apply(s, c).0.entries|
    ensures DatedNow(s, Apply(s, c).0.entries[i])
  {
    hide MoveOrder, SplitPayment, Post, Reverse, ApplyDiscount, OpenShift, CloseShift, CloseDay, PlaceOrder, ChangeStay, Environment, DatedNow;
    if c.MoveOrderCall? {
      MovedOrderEntryDate(s, c, i);
    } else if c.SplitCall? {
      SplitEntryDate(s, c, i);
    } else if c.PostCall? || c.ReverseCall? || c.DiscountCall? {
      PostedEntryDate(s, c, i);
    } else {
      OtherCallsAddNoEntries(s, c);
    }
  }

  // The closes of a property are consecutive days without gap or repetition, and the stored date follows the last.
  lemma {:induction false} ClosesAreGapFree(calls: seq<Call>, p: nat)
    requires p < |Run(EMPTY, calls).properties|
    ensures var s := Run(EMPTY, calls);
            var closes, property := ClosesOf(s.closes, p), s.properties[p];
            && |closes| == property.dateVersion
            && (forall k :: 0 <= k < |closes| ==> closes[k].date == closes[0].date + k)
            && (closes == [] <==> property.date == None)
            && (closes != [] ==> property.date == Some(closes[0].date + |closes|))
  {
    hide Run;
    ReachableBooksKeepInv(calls);
    var s := Run(EMPTY, calls);
    assert Chain(s.properties[p], ClosesOf(s.closes, p));
  }

  // The unique constraint on property and date never stops a close: no date is ever closed twice.
  lemma NoDateIsClosedTwice(s: Books, c: Call)
    requires Inv(s) && c.CloseDayCall?
    ensures CloseDay(s, c).1 != Refused(UniqueViolation)
  {
    var s' := CloseDay(s, c).0;
    if c.property < |s.properties| {
      forall k | 0 <= k < |s.closes| && s.closes[k].property == c.property
        ensures s.closes[k].date != OperationalDate(s.properties[c.property], c.today)
      {
        assert s.closes[k].date < s.properties[c.property].date.value;
      }
    }
  }

  // ---- checkout ----

  ghost predicate Settled(s: Books, b: nat)
    requires b < |s.bookings|
  {
    Balance(s, b) == 0 && forall i :: 0 <= i < |s.orders| && s.orders[i].booking == b ==> !ActiveOrder(s.orders[i])
  }

  lemma CheckoutSettles(s: Books, c: Call)
    requires c.ChangeStayCall? && c.next == CheckedOut && ChangeStay(s, c).1 == Done
    ensures c.booking < |s.bookings| && Settled(ChangeStay(s, c).0, c.booking)
    ensures var s1 := ChangeStay(s, c).0;
            s1.entries == s.entries && |s1.bookings| == |s.bookings| && s1.bookings[c.booking].stay == CheckedOut
  {
  }

  // A guest leaves only with a settled folio and no running order; from then on, for ever, no order of the stay runs
  // and the folio can grow only by corrections of what was on it.
  lemma {:induction false} CheckedOutFolioOnlyCorrected(s: Books, c: Call, calls: seq<Call>)
    requires Inv(s) && c.ChangeStayCall? && c.next == CheckedOut && ChangeStay(s, c).1 == Done
    ensures c.booking < |s.bookings| && Settled(ChangeStay(s, c).0, c.booking)
    ensures var s1, s2 := ChangeStay(s, c).0, Run(ChangeStay(s, c).0, calls);
            && s1.entries == s.entries && s.entries <= s2.entries
            && (forall i :: |s.entries| <= i < |s2.entries| && s2.entries[i].booking == c.booking ==>
                  && s2.entries[i].kind == Reversal
                  && s2.entries[i].reversalOf.Some? && s2.entries[i].reversalOf.value < |s.entries|)
            && (forall i :: 0 <= i < |s2.orders| && s2.orders[i].booking == c.booking ==> !ActiveOrder(s2.orders[i]))
  {
    CheckoutSettles(s, c);
    ChangeStayKeepsInv(s, c);
    hide Run, ChangeStay, ShiftsOk, ClosesOk, EventsOk;
    var s1, b := ChangeStay(s, c).0, c.booking;
    RunIsLater(s1, calls);
    var s2 := Run(s1, calls);
    assert LaterBooking(s1.bookings[b], s2.bookings[b]);
    forall i | |s.entries| <= i < |s2.entries| && s2.entries[i].booking == b
      ensures s2.entries[i].kind == Reversal && s2.entries[i].reversalOf.Some? && s2.entries[i].reversalOf.value < |s.entries|
    {
      assert YoungerEntry(s1, s2, s2.entries[i]);
      assert EntryOk(s2, s2.entries, s2.entries[i]);
      assert Mirrors(s2.entries, s2.entries[i]);
    }
    forall i | 0 <= i < |s2.orders| && s2.orders[i].booking == b ensures !ActiveOrder(s2.orders[i]) {
      assert OrderOk(s2, s2.orders[i]);
    }
  }

  // ---- service orders ----

  // For every order of every run, replaying its log gives its status and version, by allowed moves only.
  lemma {:induction false} OrderLogsReplay(calls: seq<Call>, o: nat)
    requires o < |Run(EMPTY, calls).orders|
    ensures var s := Run(EMPTY, calls);
            var log := LogOf(s.events, o);
            && Replays(log, Placed, s.orders[o].status, s.orders[o].version)
            && forall k :: 1 <= k < |log| ==> log[k].to in NextStatuses(s.orders[o].mode, log[k - 1].to)
  {
    hide Run;
    ReachableBooksKeepInv(calls);
    assert LogOk(Run(EMPTY, calls), o);
  }

  // Entries that were posted for an order are the one entry of that order.
  ghost predicate ServiceEntriesOk(s: Books) {
    forall i: nat :: i < |s.entries| && s.entries[i].request.ServiceRequest? ==> ServiceEntryOk(s, i)
  }

  ghost predicate ServiceEntryOk(s: Books, i: nat)
    requires i < |s.entries| && s.entries[i].request.ServiceRequest?
  {
    s.entries[i].request.order < |s.orders| && s.orders[s.entries[i].request.order].folioEntry == Some(i)
  }

  // Only posting an order appends such an entry, and it does so for that order.
  lemma SplitPostsNoServiceEntries(s: Books, c: Call, i: nat)
    requires c.SplitCall? && |s.entries| <= i < |SplitPayment(s, c).0.entries|
    ensures !SplitPayment(s, c).0.entries[i].request.ServiceRequest?
  {
    var shift := OpenShiftOf(s.shifts, s.bookings[c.booking].property, c.actor).value;
    assert SplitPayment(s, c).0.entries[i] == SplitEntry(s, c, shift, i - |s.entries|);
  }

  lemma OtherCallsPostNoServiceEntries(s: Books, c: Call, i: nat)
    requires !c.MoveOrderCall? && |s.entries| <= i < |Apply(s, c).0.entries|
    ensures !Apply(s, c).0.entries[i].request.ServiceRequest?
  {
    if c.SplitCall? {
      hide SplitPayment;
      SplitPostsNoServiceEntries(s, c, i);
    } else if c.PostCall? {
      assert Apply(s, c).0 == Post(s, c).0;
    } else if c.ReverseCall? {
      assert Apply(s, c).0 == Reverse(s, c).0;
    } else {
      assert c.DiscountCall? && Apply(s, c).0 == ApplyDiscount(s, c).0;
    }
  }

  lemma MoveOrderKeepsServiceEntries(s: Books, c: Call)
    requires OrdersOk(s) && ServiceEntriesOk(s) && c.MoveOrderCall?
    ensures ServiceEntriesOk(MoveOrder(s, c).0)
  {
    var s' := MoveOrder(s, c).0;
    forall i: nat | i < |s'.entries| && s'.entries[i].request.ServiceRequest? ensures ServiceEntryOk(s', i) {
      if i < |s.entries| {
        assert ServiceEntryOk(s, i);
        assert OrderOk(s, s.orders[s.entries[i].request.order]);
      }
    }
  }

  lemma {:induction false} ApplyKeepsServiceEntries(s: Books, c: Call)
    requires Inv(s) && ServiceEntriesOk(s)
    ensures ServiceEntriesOk(Apply(s, c).0)
  {
    var s' := Apply(s, c).0;
    if c.MoveOrderCall? {
      MoveOrderKeepsServiceEntries(s, c);
    } else {
      ApplyIsLater(s, c);
      hide Apply, EntriesOk, ShiftsOk, EventsOk, ClosesOk;
      forall i: nat | i < |s'.entries| && s'.entries[i].request.ServiceRequest? ensures ServiceEntryOk(s', i) {
        if i < |s.entries| {
          assert ServiceEntryOk(s, i);
          assert OrderOk(s, s.orders[s.entries[i].request.order]);
          assert SameOrder(s.orders[s.entries[i].request.order], s'.orders[s.entries[i].request.order]);
        } else {
          OtherCallsPostNoServiceEntries(s, c, i);
        }
      }
    }
  }

  lemma {:induction false} RunKeepsServiceEntries(calls: seq<Call>)
    ensures ServiceEntriesOk(Run(EMPTY, calls))
  {
    hide Apply, Inv;
    if calls != [] {
      RunKeepsServiceEntries(calls[..|calls| - 1]);
      ReachableBooksKeepInv(calls[..|calls| - 1]);
      ApplyKeepsServiceEntries(Run(EMPTY, calls[..|calls| - 1]), calls[|calls| - 1]);
    }
  }

  // Posted orders and service charges correspond one to one, with the order's own amount, date and folio.
  lemma {:induction false} PostedOrdersAreChargedOnce(calls: seq<Call>, o: nat)
    requires o < |Run(EMPTY, calls).orders|
    ensures var s := Run(EMPTY, calls);
            && (s.orders[o].status == Posted <==> s.orders[o].folioEntry.Some?)
            && (s.orders[o].status == Posted ==> ChargedBy(s, s.orders[o]))
            && (forall i :: 0 <= i < |s.entries| && s.entries[i].request.ServiceRequest? && s.entries[i].request.order == o ==>
                  s.orders[o].folioEntry == Some(i))
  {
    hide Run;
    var s := Run(EMPTY, calls);
    ReachableBooksKeepInv(calls);
    RunKeepsServiceEntries(calls);
    assert OrderOk(s, s.orders[o]);
    forall i | 0 <= i < |s.entries| && s.entries[i].request.ServiceRequest? && s.entries[i].request.order == o
      ensures s.orders[o].folioEntry == Some(i)
    {
      assert ServiceEntryOk(s, i);
    }
  }
}

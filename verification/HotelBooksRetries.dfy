// Retried calls, and the one drawer size that stops the books.

module HotelBooksRetries {
  import opened Common
  import opened Sums
  import opened HotelBooks
  import opened HotelBooksInvariant
  import opened HotelBooksPreservation
  import opened HotelBooksHistory

  predicate Keyed(c: Call) {
    || c.OpenShiftCall? || c.CloseShiftCall? || c.PostCall? || c.ReverseCall? || c.DiscountCall? || c.SplitCall?
    || c.PlaceOrderCall? || c.MoveOrderCall? || c.CloseDayCall?
  }

  predicate FolioCall(c: Call) { c.PostCall? || c.ReverseCall? || c.DiscountCall? || c.SplitCall? }

  // The key under which a folio call looks for an earlier row.
  function LookupKey(c: Call): string
    requires FolioCall(c)
  {
    if c.SplitCall? then SplitKey(c.key, 0) else c.key
  }

  function RequestOf(c: Call): EntryRequest
    requires FolioCall(c)
  {
    if c.PostCall? then PostRequest(c.booking, c.kind, c.category, c.amount, c.description)
    else if c.ReverseCall? then ReverseRequest(c.booking, c.entry, c.reason)
    else if c.DiscountCall? then DiscountRequest(c.actor, c.booking, c.amount, c.reason, c.expected, c.partner)
    else SplitRequest(c.allocations, c.actor, c.booking, c.expected, c.partner)
  }

  // What is checked of a folio call before any table is read.
  predicate WellFormed(c: Call)
    requires FolioCall(c)
  {
    if c.PostCall? then
      && c.kind != Reversal && (if c.kind == Charge then ChargeCategory(c.category) else PaymentCategory(c.category))
      && ValidAmount(c.amount) && (c.kind == Payment ==> c.admin)
    else if c.ReverseCall? then |c.reason| >= 8
    else if c.DiscountCall? then c.admin && |c.reason| >= 8 && ValidAmount(c.amount) && ValidAmount(c.expected)
    else c.admin && |c.key| <= 93 && ValidAllocations(c.allocations) && ValidAmount(c.expected)
  }

  ghost predicate RecordedAt(s: Books, c: Call, i: nat)
    requires FolioCall(c)
  {
    i < |s.entries| && s.entries[i].key == LookupKey(c) && s.entries[i].request == RequestOf(c)
  }

  lemma SplitRecorded(s: Books, c: Call)
    requires c.SplitCall? && !SplitPayment(s, c).1.Refused?
    ensures SplitPayment(s, c).1.EntryReply? && RecordedAt(SplitPayment(s, c).0, c, SplitPayment(s, c).1.entry)
  {
    if SplitPayment(s, c).0 != s {
      var shift := OpenShiftOf(s.shifts, s.bookings[c.booking].property, c.actor).value;
      assert SplitPayment(s, c).0.entries[|s.entries|] == SplitEntry(s, c, shift, 0);
    }
  }

  lemma PostRecorded(s: Books, c: Call)
    requires c.PostCall? && !Post(s, c).1.Refused?
    ensures Post(s, c).1.EntryReply? && RecordedAt(Post(s, c).0, c, Post(s, c).1.entry)
  {
  }

  lemma ReverseRecorded(s: Books, c: Call)
    requires c.ReverseCall? && !Reverse(s, c).1.Refused?
    ensures Reverse(s, c).1.EntryReply? && RecordedAt(Reverse(s, c).0, c, Reverse(s, c).1.entry)
  {
  }

  lemma DiscountRecorded(s: Books, c: Call)
    requires c.DiscountCall? && !ApplyDiscount(s, c).1.Refused?
    ensures ApplyDiscount(s, c).1.EntryReply? && RecordedAt(ApplyDiscount(s, c).0, c, ApplyDiscount(s, c).1.entry)
  {
  }

  // An accepted folio call is on record under its key with its request.
  lemma AcceptedIsRecorded(s: Books, c: Call)
    requires FolioCall(c) && !Apply(s, c).1.Refused?
    ensures WellFormed(c)
    ensures Apply(s, c).1.EntryReply? && RecordedAt(Apply(s, c).0, c, Apply(s, c).1.entry)
  {
    if c.PostCall? { PostRecorded(s, c); }
    else if c.ReverseCall? { ReverseRecorded(s, c); }
    else if c.DiscountCall? { DiscountRecorded(s, c); }
    else { SplitRecorded(s, c); }
  }

  // A call on record is answered from the record.
  lemma RecordedIsAnswered(s: Books, c: Call, i: nat)
    requires FolioCall(c) && WellFormed(c) && RecordedAt(s, c, i) && EntryByKey(s.entries, LookupKey(c)) == Some(i)
    ensures Apply(s, c) == (s, EntryReply(i))
  {
  }

  lemma FolioRetryLater(s: Books, c: Call, s': Books)
    requires FolioCall(c) && !Apply(s, c).1.Refused?
    requires Later(Apply(s, c).0, s') && EntriesOk(s')
    ensures Apply(s', c) == (s', Apply(s, c).1)
  {
    hide Apply, LaterRows, LaterPlaces;
    AcceptedIsRecorded(s, c);
    var (s1, r) := Apply(s, c);
    assert s'.entries[r.entry] == s1.entries[r.entry];
    RecordedIsAnswered(s', c, r.entry);
  }

  lemma OpenShiftRetryLater(s: Books, c: Call, s': Books)
    requires c.OpenShiftCall? && !OpenShift(s, c).1.Refused?
    requires Later(OpenShift(s, c).0, s') && ShiftsOk(s')
    ensures OpenShift(s', c) == (s', OpenShift(s, c).1)
  {
    var (s1, r) := OpenShift(s, c);
    assert r.ShiftReply? && r.shift < |s1.shifts| && s1.shifts[r.shift].openKey == c.key;
    assert SameShift(s1.shifts[r.shift], s'.shifts[r.shift]);
  }

  lemma CloseShiftRetryLater(s: Books, c: Call, s': Books)
    requires Inv(s) && c.CloseShiftCall? && !CloseShift(s, c).1.Refused?
    requires Later(CloseShift(s, c).0, s')
    ensures CloseShift(s', c) == (s', CloseShift(s, c).1)
  {
    var (s1, r) := CloseShift(s, c);
    assert ShiftOk(s, c.shift);
    assert SameShift(s1.shifts[c.shift], s'.shifts[c.shift]);
  }

  lemma PlaceOrderRetryLater(s: Books, c: Call, s': Books)
    requires c.PlaceOrderCall? && !PlaceOrder(s, c).1.Refused?
    requires Later(PlaceOrder(s, c).0, s') && OrdersOk(s')
    ensures PlaceOrder(s', c) == (s', PlaceOrder(s, c).1)
  {
    var (s1, r) := PlaceOrder(s, c);
    assert r.OrderReply? && r.order < |s1.orders| && s1.orders[r.order].key == c.key;
    assert SameOrder(s1.orders[r.order], s'.orders[r.order]);
  }

  ghost predicate MoveRecordedAt(s: Books, c: Call, order: nat, i: nat)
    requires c.MoveOrderCall?
  {
    && i < |s.events| && s.events[i].key == c.key && s.events[i].order == order < |s.orders|
    && s.events[i].request == MoveRequest(c.note, c.order, c.partner, c.target, c.version)
    && s.orders[order].partner == c.partner && WorkflowMode(c.workflow, s.orders[order].mode)
  }

  lemma MoveRecorded(s: Books, c: Call) returns (i: nat)
    requires c.MoveOrderCall? && !MoveOrder(s, c).1.Refused?
    ensures c.version >= 1 && MoveOrder(s, c).1.OrderReply? && MoveRecordedAt(MoveOrder(s, c).0, c, MoveOrder(s, c).1.order, i)
  {
    var found := EventByKey(s.events, c.key);
    i := if found.Some? then found.value else |s.events|;
  }

  lemma RecordedMoveIsAnswered(s: Books, c: Call, order: nat, i: nat)
    requires c.MoveOrderCall? && c.version >= 1 && MoveRecordedAt(s, c, order, i) && EventByKey(s.events, c.key) == Some(i)
    ensures MoveOrder(s, c) == (s, OrderReply(order))
  {
  }

  lemma MoveOrderRetryLater(s: Books, c: Call, s': Books)
    requires c.MoveOrderCall? && !MoveOrder(s, c).1.Refused?
    requires LaterRows(MoveOrder(s, c).0, s') && EventsOk(s')
    ensures MoveOrder(s', c) == (s', MoveOrder(s, c).1)
  {
    hide MoveOrder;
    var s1, order := MoveOrder(s, c).0, MoveOrder(s, c).1;
    var i := MoveRecorded(s, c);
    assert s'.events[i] == s1.events[i];
    assert SameOrder(s1.orders[order.order], s'.orders[order.order]);
    RecordedMoveIsAnswered(s', c, order.order, i);
  }

  ghost predicate CloseRecordedAt(s: Books, c: Call, i: nat)
    requires c.CloseDayCall?
  {
    && i < |s.closes| && s.closes[i].key == c.key && s.closes[i].request == CloseRequest(c.date, c.note, c.partner, c.property)
    && |c.note| >= 8 && c.version >= 0
  }

  lemma CloseRecorded(s: Books, c: Call)
    requires c.CloseDayCall? && !CloseDay(s, c).1.Refused?
    ensures CloseDay(s, c).1.CloseReply? && CloseRecordedAt(CloseDay(s, c).0, c, CloseDay(s, c).1.close)
  {
  }

  lemma RecordedCloseIsAnswered(s: Books, c: Call, i: nat)
    requires c.CloseDayCall? && CloseRecordedAt(s, c, i) && CloseByKey(s.closes, c.key) == Some(i)
    ensures CloseDay(s, c) == (s, CloseReply(i))
  {
  }

  lemma CloseDayRetryLater(s: Books, c: Call, s': Books)
    requires c.CloseDayCall? && !CloseDay(s, c).1.Refused?
    requires LaterRows(CloseDay(s, c).0, s') && ClosesOk(s')
    ensures CloseDay(s', c) == (s', CloseDay(s, c).1)
  {
    hide CloseDay;
    CloseRecorded(s, c);
    var s1, i := CloseDay(s, c).0, CloseDay(s, c).1.close;
    assert s'.closes[i] == s1.closes[i];
    RecordedCloseIsAnswered(s', c, i);
  }

  // An accepted call repeated with its key, after anything else has happened, changes nothing and answers the same row.
  lemma {:induction false} RetriesChangeNothing(s: Books, c: Call, calls: seq<Call>)
    requires Inv(s) && Keyed(c) && !Apply(s, c).1.Refused?
    ensures var s' := Run(Apply(s, c).0, calls);
            Apply(s', c) == (s', Apply(s, c).1)
  {
    hide Run, LaterEntries, LaterRows, LaterPlaces;
    var s1 := Apply(s, c).0;
    ApplyKeepsInv(s, c);
    RunIsLater(s1, calls);
    var s' := Run(s1, calls);
    if FolioCall(c) { FolioRetryLater(s, c, s'); }
    else if c.OpenShiftCall? { OpenShiftRetryLater(s, c, s'); }
    else if c.CloseShiftCall? { CloseShiftRetryLater(s, c, s'); }
    else if c.PlaceOrderCall? { PlaceOrderRetryLater(s, c, s'); }
    else if c.MoveOrderCall? { MoveOrderRetryLater(s, c, s'); }
    else { CloseDayRetryLater(s, c, s'); }
  }

  // ---- a drawer that cannot be closed ----

  lemma {:induction false} ShiftSizeGrows(es: seq<Entry>, es': seq<Entry>, k: nat, n: nat)
    requires es <= es' && |es| <= n <= |es'|
    ensures Sum(ShiftTerm(es', k), n) >= ShiftSize(es, k)
  {
    if n == |es| {
      SumSame(ShiftTerm(es, k), ShiftTerm(es', k), n);
    } else {
      ShiftSizeGrows(es, es', k, n - 1);
    }
  }

  ghost predicate Oversized(s: Books, k: nat) {
    k < |s.shifts| && s.shifts[k].open && ShiftSize(s.entries, k) > MAX_FOLIO_ENTRIES
  }

  lemma OnlyClosesMoveTheDate(s: Books, c: Call, p: nat)
    requires p < |s.properties| && !c.CloseDayCall?
    ensures p < |Apply(s, c).0.properties| && Apply(s, c).0.properties[p].date == s.properties[p].date
  {
  }

  lemma OversizedBlocksTheClose(s: Books, c: Call, k: nat)
    requires Oversized(s, k) && s.shifts[k].property < |s.properties| && c.CloseDayCall?
    ensures var p := s.shifts[k].property;
            p < |CloseDay(s, c).0.properties| && CloseDay(s, c).0.properties[p].date == s.properties[p].date
  {
  }

  lemma OversizedStaysOpen(s: Books, c: Call, k: nat)
    requires Oversized(s, k)
    ensures k < |Apply(s, c).0.shifts| && Apply(s, c).0.shifts[k].open
  {
    if c.CloseShiftCall? {
      assert Apply(s, c).0 == CloseShift(s, c).0;
    }
  }

  lemma ApplyKeepsOversized(s: Books, c: Call, k: nat)
    requires Oversized(s, k) && s.shifts[k].property < |s.properties| && Later(s, Apply(s, c).0)
    ensures Oversized(Apply(s, c).0, k)
    ensures var p := s.shifts[k].property; Apply(s, c).0.properties[p].date == s.properties[p].date
  {
    var s' := Apply(s, c).0;
    ShiftSizeGrows(s.entries, s'.entries, k, |s'.entries|);
    OversizedStaysOpen(s, c, k);
    if c.CloseDayCall? {
      OversizedBlocksTheClose(s, c, k);
    } else {
      OnlyClosesMoveTheDate(s, c, s.shifts[k].property);
    }
  }

  // Counting out the expected cash is the only way to close an open drawer.
  lemma DrawerClosesOnExpectedCash(s: Books, c: Call)
    requires c.CloseShiftCall? && c.version >= 1 && c.shift < |s.shifts|
    requires var t := s.shifts[c.shift];
             t.open && t.closeKey == None && t.partner == c.partner && t.actor == c.actor && t.version == c.version
    requires forall k :: 0 <= k < |s.shifts| ==> s.shifts[k].closeKey != Some(c.key)
    ensures !CloseShift(s, c).1.Refused? <==>
              0 <= c.declared <= MAX_AMOUNT && c.declared == ExpectedCash(s, c.shift) && ShiftSize(s.entries, c.shift) <= MAX_FOLIO_ENTRIES
  {
  }

  // The cashier of an open drawer can close it, by some count and under a fresh key, exactly while it has at most a
  // hundred postings and its expected cash is from zero to the largest amount. Corrections of payments that were taken
  // in other drawers can bring it below zero.
  lemma DrawerClosesExactlyWithinLimits(s: Books, c: Call)
    requires c.CloseShiftCall? && c.version >= 1 && c.shift < |s.shifts|
    requires var t := s.shifts[c.shift];
             t.open && t.closeKey == None && t.partner == c.partner && t.actor == c.actor && t.version == c.version
    requires forall k :: 0 <= k < |s.shifts| ==> s.shifts[k].closeKey != Some(c.key)
    ensures (exists declared :: !CloseShift(s, c.(declared := declared)).1.Refused?)
            <==> ShiftSize(s.entries, c.shift) <= MAX_FOLIO_ENTRIES && 0 <= ExpectedCash(s, c.shift) <= MAX_AMOUNT
  {
    hide CloseShift;
    DrawerClosesOnExpectedCash(s, c.(declared := ExpectedCash(s, c.shift)));
    if declared :| !CloseShift(s, c.(declared := declared)).1.Refused? {
      DrawerClosesOnExpectedCash(s, c.(declared := declared));
    }
  }

  // An open drawer with more than a hundred postings is never closed by any run, and its property never sees
  // another nightly close: the drawer is on the checklist for ever.
  lemma {:induction false} OversizedDrawerStopsTheBooks(s: Books, calls: seq<Call>, k: nat)
    requires Inv(s) && Oversized(s, k)
    ensures var s' := Run(s, calls);
            && Oversized(s', k) && s'.shifts[k].property == s.shifts[k].property
            && s.shifts[k].property < |s.properties| <= |s'.properties|
            && s'.properties[s.shifts[k].property].date == s.properties[s.shifts[k].property].date
    decreases |calls|
  {
    hide Apply;
    assert ShiftOk(s, k);
    if calls != [] {
      var before := calls[..|calls| - 1];
      OversizedDrawerStopsTheBooks(s, before, k);
      RunIsLater(s, before);
      ApplyIsLater(Run(s, before), calls[|calls| - 1]);
      ApplyKeepsOversized(Run(s, before), calls[|calls| - 1], k);
      assert SameShift(Run(s, before).shifts[k], Run(s, calls).shifts[k]);
    }
  }
}

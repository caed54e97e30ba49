// Every call of the hotel books keeps the invariant, hence so does every run.

module HotelBooksPreservation {
  import opened Common
  import opened Sums
  import opened StatusLogs
  import opened HotelBooks
  import opened HotelBooksInvariant

  // ---- parts of the invariant whose tables did not change ----

  // Bookings may be added but none changes its property; the same for shifts.
  ghost predicate Extends(s: Books, s': Books) {
    && |s.properties| <= |s'.properties|
    && |s.bookings| <= |s'.bookings|
    && (forall b :: 0 <= b < |s.bookings| ==> s'.bookings[b].property == s.bookings[b].property)
    && |s.shifts| <= |s'.shifts|
    && (forall k :: 0 <= k < |s.shifts| ==> s'.shifts[k].property == s.shifts[k].property)
  }

  lemma SameEntries(s: Books, s': Books)
    requires EntriesOk(s) && Extends(s, s') && s'.entries == s.entries
    ensures EntriesOk(s')
  {
    forall i | 0 <= i < |s'.entries| ensures EntryOk(s', s'.entries, s'.entries[i]) {
      assert EntryOk(s, s.entries, s.entries[i]);
    }
  }

  lemma SameShifts(s: Books, s': Books)
    requires ShiftsOk(s) && Extends(s, s') && s'.entries == s.entries && s'.shifts == s.shifts
    ensures ShiftsOk(s')
  {
    forall k: nat | k < |s'.shifts| ensures ShiftOk(s', k) {
      assert ShiftOk(s, k);
    }
  }

  lemma SameOrders(s: Books, s': Books)
    requires OrdersOk(s) && Extends(s, s') && s.entries <= s'.entries && s'.orders == s.orders
    requires forall i :: 0 <= i < |s.orders| && ActiveOrder(s.orders[i]) && s.orders[i].booking < |s.bookings| ==>
               s'.bookings[s.orders[i].booking].stay == s.bookings[s.orders[i].booking].stay
    ensures OrdersOk(s')
  {
    forall i | 0 <= i < |s'.orders| ensures OrderOk(s', s'.orders[i]) {
      assert OrderOk(s, s.orders[i]);
    }
  }

  lemma SameLogs(s: Books, s': Books)
    requires EventsOk(s) && s'.events == s.events && s'.orders == s.orders
    ensures EventsOk(s')
  {
    forall o: nat | o < |s'.orders| ensures LogOk(s', o) {
      assert LogOk(s, o);
    }
    forall k | 0 <= k < |s'.events| ensures EventOk(s', s'.events[k]) {
      assert EventOk(s, s.events[k]);
    }
  }

  lemma SameCloses(s: Books, s': Books)
    requires ClosesOk(s) && s'.closes == s.closes && |s'.properties| >= |s.properties|
    requires forall p :: 0 <= p < |s.properties| ==>
               s'.properties[p].date == s.properties[p].date && s'.properties[p].dateVersion == s.properties[p].dateVersion
    requires forall p :: |s.properties| <= p < |s'.properties| ==>
               s'.properties[p].date == None && s'.properties[p].dateVersion == 0
    ensures ClosesOk(s')
  {
    forall p: nat | p < |s'.properties| ensures Chain(s'.properties[p], ClosesOf(s'.closes, p)) {
      if p < |s.properties| {
        assert Chain(s.properties[p], ClosesOf(s.closes, p));
      } else {
        NoCloses(s.closes, p);
      }
    }
  }

  lemma {:induction false} NoCloses(cs: seq<Close>, p: nat)
    requires forall k :: 0 <= k < |cs| ==> cs[k].property != p
    ensures ClosesOf(cs, p) == []
  {
    if cs != [] {
      NoCloses(cs[..|cs| - 1], p);
    }
  }

  // ---- cashier shifts ----

  // What a new shift and a closed shift must satisfy for the shift table to stay sound.
  lemma ShiftAdded(s: Books, t: Shift)
    requires ShiftsOk(s) && EntriesOk(s)
    requires t.property < |s.properties| && t.open && t.declared == None && t.closeKey == None && t.version == 1
    requires ShiftByOpenKey(s.shifts, t.openKey).None? && OpenShiftOf(s.shifts, t.property, t.actor).None?
    ensures ShiftsOk(s.(shifts := s.shifts + [t]))
  {
    var s' := s.(shifts := s.shifts + [t]);
    forall k: nat | k < |s'.shifts| ensures ShiftOk(s', k) {
      if k < |s.shifts| {
        assert ShiftOk(s, k);
      }
    }
    forall j, k | 0 <= j < k < |s'.shifts| && s'.shifts[j].open
      ensures !ActiveKey(s'.shifts[k], s'.shifts[j].property, s'.shifts[j].actor)
    {
      if k == |s.shifts| {
        assert !ActiveKey(s.shifts[j], t.property, t.actor);
      }
    }
  }

  lemma OpenShiftKeepsInv(s: Books, c: Call)
    requires Inv(s) && c.OpenShiftCall?
    ensures Inv(OpenShift(s, c).0)
  {
    hide EntriesOk, OrdersOk, ClosesOk, EventsOk;
    var s' := OpenShift(s, c).0;
    if s' != s {
      ShiftAdded(s, s'.shifts[|s.shifts|]);
      SameEntries(s, s');
      SameOrders(s, s');
      SameCloses(s, s');
      SameLogs(s, s');
    }
  }

  lemma ShiftClosed(s: Books, k: nat, t: Shift)
    requires ShiftsOk(s) && k < |s.shifts| && s.shifts[k].open
    requires t.property == s.shifts[k].property && t.openKey == s.shifts[k].openKey && !t.open && t.version >= 1
    requires t.declared == Some(ExpectedCash(s, k)) && t.opening == s.shifts[k].opening && t.closeKey.Some?
    requires forall j :: 0 <= j < |s.shifts| ==> s.shifts[j].closeKey != t.closeKey
    ensures ShiftsOk(s.(shifts := s.shifts[k := t]))
  {
    var s' := s.(shifts := s.shifts[k := t]);
    forall j: nat | j < |s'.shifts| ensures ShiftOk(s', j) {
      assert ShiftOk(s, j);
    }
  }

  lemma CloseShiftKeepsInv(s: Books, c: Call)
    requires Inv(s) && c.CloseShiftCall?
    ensures Inv(CloseShift(s, c).0)
  {
    hide EntriesOk, OrdersOk, ClosesOk, EventsOk;
    var s' := CloseShift(s, c).0;
    if s' != s {
      ShiftClosed(s, c.shift, s'.shifts[c.shift]);
      SameEntries(s, s');
      SameOrders(s, s');
      SameCloses(s, s');
      SameLogs(s, s');
    }
  }

  // ---- folio entries ----

  lemma PostKeepsInv(s: Books, c: Call)
    requires Inv(s) && c.PostCall?
    ensures Inv(Post(s, c).0)
  {
    var s' := Post(s, c).0;
    if s' != s {
      var e := s'.entries[|s.entries|];
      assert s' == s.(entries := s.entries + [e]);
      AppendKeepsInv(s, e);
    }
  }

  lemma ReverseKeepsInv(s: Books, c: Call)
    requires Inv(s) && c.ReverseCall?
    ensures Inv(Reverse(s, c).0)
  {
    var s' := Reverse(s, c).0;
    if s' != s {
      var e := s'.entries[|s.entries|];
      assert s' == s.(entries := s.entries + [e]);
      assert EntryOk(s, s.entries, s.entries[c.entry]);
      AppendKeepsInv(s, e);
    }
  }

  lemma DiscountKeepsInv(s: Books, c: Call)
    requires Inv(s) && c.DiscountCall?
    ensures Inv(ApplyDiscount(s, c).0)
  {
    var s' := ApplyDiscount(s, c).0;
    if s' != s {
      var e := s'.entries[|s.entries|];
      assert s' == s.(entries := s.entries + [e]);
      AppendKeepsInv(s, e);
    }
  }

  lemma SplitKeysDiffer(base: string, i: nat, j: nat)
    requires i < j < 4
    ensures SplitKey(base, i) != SplitKey(base, j)
  {
    assert SplitKey(base, i)[|base| + 2] != SplitKey(base, j)[|base| + 2];
  }

  lemma SplitEntryMayAppend(s: Books, before: Books, c: Call, shift: nat, n: nat)
    requires c.SplitCall? && ValidAllocations(c.allocations) && ActiveStay(s, c.partner, c.booking)
    requires n < |c.allocations| && before == s.(entries := before.entries)
    requires shift < |s.shifts| && ActiveKey(s.shifts[shift], s.bookings[c.booking].property, c.actor)
    requires forall i :: 0 <= i < |before.entries| ==> before.entries[i].key != SplitKey(c.key, n)
    ensures MayAppend(before, SplitEntry(s, c, shift, n))
  {
    assert c.allocations[n] in c.allocations;
  }

  // The split payments one by one: each appended entry is one that may be appended.
  lemma {:induction false} SplitKeepsInvUpTo(s: Books, c: Call, shift: nat, n: nat)
    requires Inv(s) && c.SplitCall? && ValidAllocations(c.allocations) && ActiveStay(s, c.partner, c.booking)
    requires n <= |c.allocations|
    requires shift < |s.shifts| && ActiveKey(s.shifts[shift], s.bookings[c.booking].property, c.actor)
    requires forall i: nat, k :: i < |c.allocations| && 0 <= k < |s.entries| ==> s.entries[k].key != SplitKey(c.key, i)
    ensures Inv(s.(entries := s.entries + SplitEntries(s, c, shift, n)))
  {
    hide Inv, MayAppend;
    if n == 0 {
      assert s.entries + SplitEntries(s, c, shift, 0) == s.entries;
    } else {
      SplitKeepsInvUpTo(s, c, shift, n - 1);
      var added := SplitEntries(s, c, shift, n - 1);
      var before := s.(entries := s.entries + added);
      var e := SplitEntry(s, c, shift, n - 1);
      forall i | 0 <= i < |before.entries| ensures before.entries[i].key != e.key {
        if i >= |s.entries| {
          SplitKeysDiffer(c.key, i - |s.entries|, n - 1);
          assert before.entries[i] == added[i - |s.entries|] == SplitEntry(s, c, shift, i - |s.entries|);
        }
      }
      SplitEntryMayAppend(s, before, c, shift, n - 1);
      AppendKeepsInv(before, e);
      assert before.entries + [e] == s.entries + SplitEntries(s, c, shift, n);
    }
  }

  lemma {:induction false} SplitKeepsInv(s: Books, c: Call)
    requires Inv(s) && c.SplitCall?
    ensures Inv(SplitPayment(s, c).0)
  {
    hide Inv;
    var s' := SplitPayment(s, c).0;
    if s' != s {
      var shift := OpenShiftOf(s.shifts, s.bookings[c.booking].property, c.actor).value;
      forall i: nat, k | i < |c.allocations| && 0 <= k < |s.entries| ensures s.entries[k].key != SplitKey(c.key, i) {
        assert EntryByKey(s.entries, SplitKey(c.key, i)).None?;
      }
      SplitKeepsInvUpTo(s, c, shift, |c.allocations|);
    }
  }

  lemma {:induction false} NoMoves(es: seq<Event>, o: nat)
    requires forall k :: 0 <= k < |es| ==> es[k].order != o
    ensures LogOf(es, o) == []
  {
    if es != [] {
      NoMoves(es[..|es| - 1], o);
    }
  }

  lemma OrderAdded(s: Books, o: Order)
    requires OrdersOk(s) && OrderOk(s, o) && o.folioEntry == None && OrderByKey(s.orders, o.key).None?
    ensures OrdersOk(s.(orders := s.orders + [o]))
  {
    var s' := s.(orders := s.orders + [o]);
    forall i | 0 <= i < |s'.orders| ensures OrderOk(s', s'.orders[i]) {
      if i < |s.orders| {
        assert OrderOk(s, s.orders[i]);
      }
    }
  }

  lemma LogOpened(s: Books, o: Order, e: Event)
    requires EventsOk(s) && EventByKey(s.events, e.key).None?
    requires o.status == Placed && o.version == 1
    requires e.order == |s.orders| && e.from == None && e.to == Placed && e.version == 1 && e.request == PlaceRequest(o.request)
    ensures EventsOk(s.(orders := s.orders + [o], events := s.events + [e]))
  {
    var s' := s.(orders := s.orders + [o], events := s.events + [e]);
    assert s'.events[..|s'.events| - 1] == s.events;
    forall i: nat | i < |s'.orders| ensures LogOk(s', i) {
      if i < |s.orders| {
        assert LogOk(s, i);
      } else {
        forall k | 0 <= k < |s.events| ensures s.events[k].order != i {
          assert EventOk(s, s.events[k]);
        }
        NoMoves(s.events, i);
      }
    }
    forall k | 0 <= k < |s'.events| ensures EventOk(s', s'.events[k]) {
      if k < |s.events| {
        assert EventOk(s, s.events[k]);
      }
    }
  }

  lemma PlaceOrderKeepsInv(s: Books, c: Call)
    requires Inv(s) && c.PlaceOrderCall?
    ensures Inv(PlaceOrder(s, c).0)
  {
    hide EntriesOk, ShiftsOk, ClosesOk, EventsOk;
    var s' := PlaceOrder(s, c).0;
    if s' != s {
      var o, e := s'.orders[|s.orders|], s'.events[|s.events|];
      OrderAdded(s, o);
      LogOpened(s, o, e);
      SameEntries(s, s');
      SameShifts(s, s');
      SameCloses(s, s');
    }
  }

  // An order moves on by one allowed step.
  ghost predicate Moves(s: Books, id: nat, moved: Order, e: Event) {
    && id < |s.orders|
    && var o := s.orders[id];
       && ActiveOrder(o) && moved.status in NextStatuses(o.mode, o.status)
       && moved == o.(status := moved.status, version := o.version + 1, folioEntry := moved.folioEntry)
       && e.order == id && e.from == Some(o.status) && e.to == moved.status && e.version == moved.version
       && e.request.MoveRequest? && e.request.order == id && e.request.partner == moved.partner
       && EventByKey(s.events, e.key).None?
  }

  lemma OrderMoved(s: Books, id: nat, moved: Order, e: Event)
    requires OrdersOk(s) && Moves(s, id, moved, e)
    requires if moved.status == Posted then ChargedBy(s, moved) else moved.folioEntry == None
    requires forall i :: 0 <= i < |s.orders| && moved.folioEntry.Some? ==> s.orders[i].folioEntry != moved.folioEntry
    ensures OrdersOk(s.(orders := s.orders[id := moved]))
  {
    var s' := s.(orders := s.orders[id := moved]);
    forall i | 0 <= i < |s'.orders| ensures OrderOk(s', s'.orders[i]) {
      assert OrderOk(s, s.orders[i]);
    }
  }

  lemma LogExtended(s: Books, id: nat, moved: Order, e: Event)
    requires EventsOk(s) && Moves(s, id, moved, e)
    ensures EventsOk(s.(orders := s.orders[id := moved], events := s.events + [e]))
  {
    var s' := s.(orders := s.orders[id := moved], events := s.events + [e]);
    assert s'.events[..|s'.events| - 1] == s.events;
    forall i: nat | i < |s'.orders| ensures LogOk(s', i) {
      assert LogOk(s, i);
    }
    forall k | 0 <= k < |s'.events| ensures EventOk(s', s'.events[k]) {
      if k < |s.events| {
        assert EventOk(s, s.events[k]);
      }
    }
  }

  lemma OrderStepKeepsInv(s: Books, id: nat, moved: Order, e: Event)
    requires Inv(s) && Moves(s, id, moved, e)
    requires if moved.status == Posted then ChargedBy(s, moved) else moved.folioEntry == None
    requires forall i :: 0 <= i < |s.orders| && moved.folioEntry.Some? ==> s.orders[i].folioEntry != moved.folioEntry
    ensures Inv(s.(orders := s.orders[id := moved], events := s.events + [e]))
  {
    hide EntriesOk, ShiftsOk, ClosesOk, EventsOk;
    var s' := s.(orders := s.orders[id := moved], events := s.events + [e]);
    OrderMoved(s, id, moved, e);
    LogExtended(s, id, moved, e);
    SameEntries(s, s');
    SameShifts(s, s');
    SameCloses(s, s');
  }

  // The charge of a posted order, and its order not yet moved.
  lemma OrderChargeKeepsInv(s: Books, id: nat, serviceKey: string)
    requires Inv(s) && id < |s.orders| && EntryByKey(s.entries, serviceKey).None?
    ensures Inv(s.(entries := s.entries + [OrderCharge(s.orders[id], id, serviceKey)]))
    ensures forall i :: 0 <= i < |s.orders| ==> s.orders[i].folioEntry != Some(|s.entries|)
  {
    assert OrderOk(s, s.orders[id]);
    AppendKeepsInv(s, OrderCharge(s.orders[id], id, serviceKey));
    forall i | 0 <= i < |s.orders| ensures s.orders[i].folioEntry != Some(|s.entries|) {
      assert OrderOk(s, s.orders[i]);
    }
  }

  lemma {:induction false} MoveOrderKeepsInv(s: Books, c: Call)
    requires Inv(s) && c.MoveOrderCall?
    ensures Inv(MoveOrder(s, c).0)
  {
    hide EntriesOk, ShiftsOk, ClosesOk;
    var s' := MoveOrder(s, c).0;
    if s' != s {
      var moved, e := s'.orders[c.order], s'.events[|s.events|];
      assert OrderOk(s, s.orders[c.order]);
      var s1 := s.(entries := s'.entries);
      if c.target == Posted {
        OrderChargeKeepsInv(s, c.order, c.serviceKey);
      }
      OrderStepKeepsInv(s1, c.order, moved, e);
    }
  }

  // ---- the nightly close ----

  lemma ChainExtended(p: Property, closes: seq<Close>, added: Close)
    requires Chain(p, closes) && added.next == added.date + 1
    requires p.date.Some? ==> p.date.value == added.date
    ensures Chain(p.(date := Some(added.next), dateVersion := p.dateVersion + 1), closes + [added])
  {
    var closes' := closes + [added];
    forall k | 0 <= k < |closes'| ensures closes'[k].date == closes'[0].date + k && closes'[k].next == closes'[k].date + 1 {
      if k == |closes| && k > 0 {
        assert closes[k - 1].next == closes[k - 1].date + 1;
      }
    }
  }

  lemma DayClosed(s: Books, p: nat, added: Close)
    requires ClosesOk(s) && p < |s.properties|
    requires added.property == p && added.next == added.date + 1 && CloseByKey(s.closes, added.key).None?
    requires s.properties[p].date.Some? ==> s.properties[p].date.value == added.date
    ensures ClosesOk(s.(properties := s.properties[p := s.properties[p].(date := Some(added.next), dateVersion := s.properties[p].dateVersion + 1)],
                        closes := s.closes + [added]))
  {
    var closed := s.properties[p].(date := Some(added.next), dateVersion := s.properties[p].dateVersion + 1);
    var s' := s.(properties := s.properties[p := closed], closes := s.closes + [added]);
    assert s'.closes[..|s'.closes| - 1] == s.closes;
    forall q: nat | q < |s'.properties| ensures Chain(s'.properties[q], ClosesOf(s'.closes, q)) {
      assert Chain(s.properties[q], ClosesOf(s.closes, q));
      if q == p {
        ChainExtended(s.properties[p], ClosesOf(s.closes, p), added);
      }
    }
  }

  lemma CloseDayKeepsInv(s: Books, c: Call)
    requires Inv(s) && c.CloseDayCall?
    ensures Inv(CloseDay(s, c).0)
  {
    hide EntriesOk, ShiftsOk, OrdersOk, EventsOk;
    var s' := CloseDay(s, c).0;
    if s' != s {
      var p := c.property;
      DayClosed(s, p, s'.closes[|s.closes|]);
      SameEntries(s, s');
      SameShifts(s, s');
      SameOrders(s, s');
      SameLogs(s, s');
    }
  }

  // ---- stays and the rest of the system ----

  // Booking rows may change or be added as long as no booking leaves its property,
  // and none with a running order leaves the checked-in state.
  lemma BookingsChangedKeepsInv(s: Books, s': Books)
    requires Inv(s) && s' == s.(bookings := s'.bookings) && Extends(s, s') && BookingsOk(s')
    requires forall i :: 0 <= i < |s.orders| && ActiveOrder(s.orders[i]) && s.orders[i].booking < |s.bookings| ==>
               s'.bookings[s.orders[i].booking].stay == s.bookings[s.orders[i].booking].stay
    ensures Inv(s')
  {
    SameEntries(s, s');
    SameShifts(s, s');
    SameOrders(s, s');
    SameCloses(s, s');
    SameLogs(s, s');
  }

  lemma ChangeStayKeepsInv(s: Books, c: Call)
    requires Inv(s) && c.ChangeStayCall?
    ensures Inv(ChangeStay(s, c).0)
  {
    var s' := ChangeStay(s, c).0;
    if s' != s {
      forall i | 0 <= i < |s.orders| && ActiveOrder(s.orders[i]) && s.orders[i].booking < |s.bookings|
        ensures s'.bookings[s.orders[i].booking].stay == s.bookings[s.orders[i].booking].stay
      {
        assert OrderOk(s, s.orders[i]);
      }
      BookingsChangedKeepsInv(s, s');
    }
  }

  lemma EnvironmentKeepsInv(s: Books, c: Call)
    requires Inv(s) && (c.AddPropertyCall? || c.SetActiveCall? || c.AddBookingCall? || c.AmendBookingCall?)
    ensures Inv(Environment(s, c).0)
  {
    hide EntriesOk, ShiftsOk, OrdersOk, ClosesOk, EventsOk;
    var s' := Environment(s, c).0;
    if c.AddBookingCall? || c.AmendBookingCall? {
      BookingsChangedKeepsInv(s, s');
    } else {
      SameEntries(s, s');
      SameShifts(s, s');
      SameOrders(s, s');
      SameCloses(s, s');
      SameLogs(s, s');
    }
  }

  lemma ApplyKeepsInv(s: Books, c: Call)
    requires Inv(s)
    ensures Inv(Apply(s, c).0)
  {
    hide Inv, OpenShift, CloseShift, Post, Reverse, ApplyDiscount, SplitPayment, PlaceOrder, MoveOrder, CloseDay, ChangeStay, Environment;
    if c.OpenShiftCall? { OpenShiftKeepsInv(s, c); }
    else if c.CloseShiftCall? { CloseShiftKeepsInv(s, c); }
    else if c.PostCall? { PostKeepsInv(s, c); }
    else if c.ReverseCall? { ReverseKeepsInv(s, c); }
    else if c.DiscountCall? { DiscountKeepsInv(s, c); }
    else if c.SplitCall? { SplitKeepsInv(s, c); }
    else if c.PlaceOrderCall? { PlaceOrderKeepsInv(s, c); }
    else if c.MoveOrderCall? { MoveOrderKeepsInv(s, c); }
    else if c.CloseDayCall? { CloseDayKeepsInv(s, c); }
    else if c.ChangeStayCall? { ChangeStayKeepsInv(s, c); }
    else { EnvironmentKeepsInv(s, c); }
  }

  lemma {:induction false} RunKeepsInv(s: Books, calls: seq<Call>)
    requires Inv(s)
    ensures Inv(Run(s, calls))
  {
    hide Inv, Apply;
    if calls != [] {
      RunKeepsInv(s, calls[..|calls| - 1]);
      ApplyKeepsInv(Run(s, calls[..|calls| - 1]), calls[|calls| - 1]);
    }
  }

  lemma EmptyFoliosAreSound()
    ensures EntriesOk(EMPTY) && BookingsOk(EMPTY) && ClosesOk(EMPTY)
  {
  }

  lemma EmptyShiftsAreSound()
    ensures ShiftsOk(EMPTY) && DatesOk(EMPTY)
  {
  }

  lemma EmptyOrdersAreSound()
    ensures OrdersOk(EMPTY) && EventsOk(EMPTY)
  {
  }

  lemma EmptyBooksKeepInv()
    ensures Inv(EMPTY)
  {
    hide EntriesOk, BookingsOk, ClosesOk, ShiftsOk, DatesOk, OrdersOk, EventsOk;
    EmptyFoliosAreSound();
    EmptyShiftsAreSound();
    EmptyOrdersAreSound();
  }

  // In every run of the books from nothing, everything above holds.
  lemma {:induction false} ReachableBooksKeepInv(calls: seq<Call>)
    ensures Inv(Run(EMPTY, calls))
  {
    hide Run, Inv;
    EmptyBooksKeepInv();
    RunKeepsInv(EMPTY, calls);
  }
}

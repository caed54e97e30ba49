// What each call of the hotel books asks for and what it leaves, spelled on the rows: a call under a fresh key is accepted
// exactly when this holds, and is refused without a trace otherwise.

module HotelBooksOutcomes {
  import opened Common
  import opened Sums
  import opened HotelBooks
  import opened HotelBooksInvariant
  import opened HotelBooksPreservation
  import opened HotelBooksHistory
  import opened HotelBooksRetries

  // The partner runs this property through the desk.
  ghost predicate Runs(s: Books, partner: nat, p: nat) {
    p < |s.properties| && s.properties[p].partner == partner && s.properties[p].managed && s.properties[p].active
  }

  ghost predicate ConfirmedAt(s: Books, partner: nat, b: nat) {
    b < |s.bookings| && s.bookings[b].confirmed && Runs(s, partner, s.bookings[b].property)
  }

  // The day of the books: the stored date, or the calendar's while none is stored.
  ghost predicate BooksDay(s: Books, p: nat, today: int, date: int) {
    p < |s.properties| && (s.properties[p].date == Some(date) || (s.properties[p].date == None && date == today))
  }

  // The open drawer of a cashier at a property.
  ghost predicate IsDrawer(s: Books, p: nat, actor: nat, k: nat) {
    k < |s.shifts| && s.shifts[k].open && s.shifts[k].property == p && s.shifts[k].actor == actor
  }

  lemma DrawerIsFound(s: Books, p: nat, actor: nat)
    ensures OpenShiftOf(s.shifts, p, actor).Some? <==> exists k: nat :: IsDrawer(s, p, actor, k)
    ensures OpenShiftOf(s.shifts, p, actor).Some? ==> IsDrawer(s, p, actor, OpenShiftOf(s.shifts, p, actor).value)
  {
    var found := OpenShiftOf(s.shifts, p, actor);
    if found.Some? {
      assert IsDrawer(s, p, actor, found.value);
    } else {
      forall k: nat ensures !IsDrawer(s, p, actor, k) {
        assert k < |s.shifts| ==> !ActiveKey(s.shifts[k], p, actor);
      }
    }
  }

  ghost predicate FreshEntry(s: Books, key: string) { forall i :: 0 <= i < |s.entries| ==> s.entries[i].key != key }

  // Nothing happened but this one refusal.
  ghost predicate Declined(s: Books, c: Call) { Apply(s, c).0 == s && Apply(s, c).1.Refused? }

  // One entry was added: the last, and nothing else changed.
  ghost predicate Added(s: Books, c: Call) {
    var (s', reply) := Apply(s, c);
    && |s'.entries| == |s.entries| + 1 && s' == s.(entries := s.entries + [s'.entries[|s.entries|]])
    && reply == EntryReply(|s.entries|)
  }

  // ---- what a folio and a drawer amount to ----

  // What an entry of the folio adds to what is owed: a charge its amount, a discount and a payment the opposite, and a
  // reversal takes that back.
  ghost function Owed(s: Books, b: nat): nat -> int {
    (i: nat) => if i < |s.entries| && s.entries[i].booking == b then OwedFor(s, s.entries[i]) else 0
  }

  ghost function OwedFor(s: Books, e: Entry): int {
    match e.kind
    case Charge => if e.category == Discount then 0 - e.amount else e.amount
    case Payment => 0 - e.amount
    case Reversal =>
      if e.reversalOf.None? || e.reversalOf.value >= |s.entries| then 0
      else
        match s.entries[e.reversalOf.value].kind
        case Charge => if e.category == Discount then e.amount else 0 - e.amount
        case Payment => e.amount
        case Reversal => 0
  }

  // The balance is the value of the booking, less the online payment that was not refunded, and what the entries add to it.
  lemma BalanceAddsUp(s: Books, b: nat)
    requires b < |s.bookings|
    ensures var booking := s.bookings[b];
            Balance(s, b) == booking.total - (if booking.refunds < booking.online then booking.online - booking.refunds else 0)
                             + Sum(Owed(s, b), |s.entries|)
  {
    var es := s.entries;
    SumPlus(Owed(s, b), PaymentTerm(es, b), ChargeTerm(es, b), |es|);
  }

  // What an entry puts into the drawer.
  ghost function CashIn(s: Books, k: nat): nat -> int {
    (i: nat) =>
      if i < |s.entries| && s.entries[i].shift == Some(k) && s.entries[i].category == Cash && s.entries[i].kind == Payment
      then s.entries[i].amount
      else if i < |s.entries| && s.entries[i].shift == Some(k) && s.entries[i].category == Cash && s.entries[i].kind == Reversal
              && exists j: nat :: j < |s.entries| && s.entries[i].reversalOf == Some(j) && s.entries[j].kind == Payment
      then 0 - s.entries[i].amount
      else 0
  }

  lemma DrawerAddsUp(s: Books, k: nat)
    ensures DrawerCash(s.entries, k) == Sum(CashIn(s, k), |s.entries|)
  {
    SumSame(CashTerm(s.entries, k), CashIn(s, k), |s.entries|);
  }

  // The limits of a hundred count the entries of a folio and the postings of a drawer.
  lemma FolioSizeCounts(s: Books, b: nat)
    ensures FolioSize(s.entries, b) == |set i: nat | i < |s.entries| && s.entries[i].booking == b|
  {
    SumCounts(FolioTerm(s.entries, b), |s.entries|);
    assert (set i: nat | i < |s.entries| && s.entries[i].booking == b) == Ones(FolioTerm(s.entries, b), |s.entries|);
  }

  lemma DrawerSizeCounts(s: Books, k: nat)
    ensures ShiftSize(s.entries, k) == |set i: nat | i < |s.entries| && s.entries[i].shift == Some(k)|
  {
    SumCounts(ShiftTerm(s.entries, k), |s.entries|);
    assert (set i: nat | i < |s.entries| && s.entries[i].shift == Some(k)) == Ones(ShiftTerm(s.entries, k), |s.entries|);
  }

  // ---- drawers ----

  ghost predicate MayOpen(s: Books, c: Call)
    requires c.OpenShiftCall?
  {
    && 0 <= c.opening <= 10_000_000 && Runs(s, c.partner, c.property)
    && forall k: nat :: k < |s.shifts| ==> !IsDrawer(s, c.property, c.actor, k)
  }

  lemma DrawersOpenExactly(s: Books, c: Call)
    requires c.OpenShiftCall? && forall k :: 0 <= k < |s.shifts| ==> s.shifts[k].openKey != c.key
    ensures if MayOpen(s, c) then
              && Apply(s, c).1 == ShiftReply(|s.shifts|) && |Apply(s, c).0.shifts| == |s.shifts| + 1
              && var t := Apply(s, c).0.shifts[|s.shifts|];
                 && Apply(s, c).0 == s.(shifts := s.shifts + [t])
                 && t.partner == c.partner && t.property == c.property && t.actor == c.actor && t.opening == c.opening && t.openKey == c.key
                 && t.open && t.declared == None && t.closeKey == None && t.closedBy == None && t.version == 1
                 && BooksDay(s, c.property, c.today, t.date)
            else Declined(s, c)
  {
    DrawerIsFound(s, c.property, c.actor);
    hide OpenShiftOf;
  }

  ghost predicate MayClose(s: Books, c: Call)
    requires c.CloseShiftCall?
  {
    && 0 <= c.declared <= 10_000_000 && c.shift < |s.shifts|
    && var t := s.shifts[c.shift];
       && t.partner == c.partner && t.actor == c.actor && t.open && t.version == c.version && c.version >= 1
       && c.declared == t.opening + DrawerCash(s.entries, c.shift) && ShiftSize(s.entries, c.shift) <= 100
  }

  lemma DrawersCloseExactly(s: Books, c: Call)
    requires c.CloseShiftCall? && forall k :: 0 <= k < |s.shifts| ==> s.shifts[k].closeKey != Some(c.key)
    ensures if MayClose(s, c) then
              && Apply(s, c).1 == ShiftReply(c.shift) && |Apply(s, c).0.shifts| == |s.shifts|
              && var t, t' := s.shifts[c.shift], Apply(s, c).0.shifts[c.shift];
                 && Apply(s, c).0 == s.(shifts := s.shifts[c.shift := t'])
                 && t' == t.(open := false, declared := Some(c.declared), closeKey := Some(c.key), closedBy := Some(c.actor), version := t.version + 1)
            else Declined(s, c)
  {
  }

  // ---- the folio ----

  ghost predicate MayPost(s: Books, c: Call)
    requires c.PostCall?
  {
    && 1 <= c.amount <= 10_000_000 && ConfirmedAt(s, c.partner, c.booking)
    && (s.bookings[c.booking].stay == Reserved || s.bookings[c.booking].stay == CheckedIn)
    && FolioSize(s.entries, c.booking) <= 100
    && match c.kind
       case Charge =>
         || c.category == RoomService || c.category == FoodAndBeverage || c.category == Laundry || c.category == Minibar
         || c.category == Spa || c.category == Damage || c.category == OtherCharge
       case Payment =>
         && (c.category == Cash || c.category == Card || c.category == Upi || c.category == BankTransfer)
         && c.admin && c.amount <= Balance(s, c.booking)
         && exists k: nat :: IsDrawer(s, s.bookings[c.booking].property, c.actor, k)
       case Reversal => false
  }

  lemma PostingsExactly(s: Books, c: Call)
    requires BookingsOk(s) && c.PostCall? && FreshEntry(s, c.key)
    ensures if MayPost(s, c) then
              && Added(s, c)
              && var e := Apply(s, c).0.entries[|s.entries|];
                 && e.booking == c.booking && e.kind == c.kind && e.category == c.category && e.amount == c.amount && e.key == c.key
                 && e.reversalOf == None && BooksDay(s, s.bookings[c.booking].property, c.today, e.date)
                 && e.request == PostRequest(c.booking, c.kind, c.category, c.amount, c.description)
                 && (e.shift.Some? <==> c.kind == Payment)
                 && (e.shift.Some? ==> IsDrawer(s, s.bookings[c.booking].property, c.actor, e.shift.value))
            else Declined(s, c)
  {
    hide NetCharges, NetPayments, FolioSize, OnlineNet, OpenShiftOf;
    if c.booking < |s.bookings| {
      DrawerIsFound(s, s.bookings[c.booking].property, c.actor);
    }
  }

  ghost predicate MayReverse(s: Books, c: Call)
    requires c.ReverseCall?
  {
    && |c.reason| >= 8 && ConfirmedAt(s, c.partner, c.booking) && c.entry < |s.entries|
    && s.entries[c.entry].booking == c.booking && s.entries[c.entry].kind != Reversal
    && (forall j :: 0 <= j < |s.entries| ==> s.entries[j].reversalOf != Some(c.entry))
    && (s.entries[c.entry].kind == Payment ==> exists k: nat :: IsDrawer(s, s.bookings[c.booking].property, c.actor, k))
  }

  lemma ReversalsExactly(s: Books, c: Call)
    requires BookingsOk(s) && c.ReverseCall? && FreshEntry(s, c.key)
    ensures if MayReverse(s, c) then
              && Added(s, c)
              && var e, o := Apply(s, c).0.entries[|s.entries|], s.entries[c.entry];
                 && e.booking == c.booking && e.kind == Reversal && e.category == o.category && e.amount == o.amount && e.key == c.key
                 && e.reversalOf == Some(c.entry) && BooksDay(s, s.bookings[c.booking].property, c.today, e.date)
                 && e.request == ReverseRequest(c.booking, c.entry, c.reason)
                 && (e.shift.Some? <==> o.kind == Payment)
                 && (e.shift.Some? ==> IsDrawer(s, s.bookings[c.booking].property, c.actor, e.shift.value))
            else Declined(s, c)
  {
    hide OpenShiftOf;
    if c.booking < |s.bookings| {
      DrawerIsFound(s, s.bookings[c.booking].property, c.actor);
    }
  }

  ghost predicate MayDiscount(s: Books, c: Call)
    requires c.DiscountCall?
  {
    && c.admin && |c.reason| >= 8 && 1 <= c.amount <= c.expected <= 10_000_000
    && ConfirmedAt(s, c.partner, c.booking) && c.expected == Balance(s, c.booking)
    && (s.bookings[c.booking].stay == Reserved || s.bookings[c.booking].stay == CheckedIn)
    && FolioSize(s.entries, c.booking) <= 100
  }

  lemma DiscountsExactly(s: Books, c: Call)
    requires BookingsOk(s) && c.DiscountCall? && FreshEntry(s, c.key)
    ensures if MayDiscount(s, c) then
              && Added(s, c)
              && var e := Apply(s, c).0.entries[|s.entries|];
                 && e.booking == c.booking && e.kind == Charge && e.category == Discount && e.amount == c.amount && e.key == c.key
                 && e.reversalOf == None && e.shift == None && BooksDay(s, s.bookings[c.booking].property, c.today, e.date)
                 && e.request == DiscountRequest(c.actor, c.booking, c.amount, c.reason, c.expected, c.partner)
            else Declined(s, c)
  {
    hide NetCharges, NetPayments, FolioSize, OnlineNet;
  }

  // The parts of a split payment, in order.
  ghost predicate MaySplit(s: Books, c: Call)
    requires c.SplitCall?
  {
    && c.admin && |c.key| <= 93 && 2 <= |c.allocations| <= 4 && 1 <= c.expected <= 10_000_000
    && (forall i :: 0 <= i < |c.allocations| ==>
          && 1 <= c.allocations[i].amount <= 10_000_000
          && (c.allocations[i].category == Cash || c.allocations[i].category == Card
              || c.allocations[i].category == Upi || c.allocations[i].category == BankTransfer))
    && ConfirmedAt(s, c.partner, c.booking)
    && (s.bookings[c.booking].stay == Reserved || s.bookings[c.booking].stay == CheckedIn)
    && FolioSize(s.entries, c.booking) <= 100
    && c.expected == Balance(s, c.booking) == Sum(Parts(c.allocations), |c.allocations|)
    && exists k: nat :: IsDrawer(s, s.bookings[c.booking].property, c.actor, k)
  }

  function Parts(allocations: seq<Allocation>): nat -> int {
    (i: nat) => if i < |allocations| then allocations[i].amount else 0
  }

  lemma {:induction false} TotalOfParts(allocations: seq<Allocation>)
    ensures AllocationTotal(allocations) == Sum(Parts(allocations), |allocations|)
  {
    if allocations != [] {
      var before := allocations[..|allocations| - 1];
      TotalOfParts(before);
      SumSame(Parts(before), Parts(allocations), |before|);
    }
  }

  function PartKey(key: string, i: nat): string
    requires i < 4
  {
    key + (if i == 0 then "_01" else if i == 1 then "_02" else if i == 2 then "_03" else "_04")
  }

  // One part of a split payment.
  ghost predicate PaysPart(s: Books, c: Call, e: Entry, i: nat)
    requires c.SplitCall? && i < |c.allocations| && i < 4 && c.booking < |s.bookings|
  {
    && e.booking == c.booking && e.kind == Payment && e.category == c.allocations[i].category && e.amount == c.allocations[i].amount
    && e.key == PartKey(c.key, i) && e.reversalOf == None
    && BooksDay(s, s.bookings[c.booking].property, c.today, e.date)
    && e.shift.Some? && IsDrawer(s, s.bookings[c.booking].property, c.actor, e.shift.value)
    && e.request == SplitRequest(c.allocations, c.actor, c.booking, c.expected, c.partner)
  }

  ghost predicate FreshParts(s: Books, key: string) {
    forall i: nat :: i < 4 ==> FreshEntry(s, PartKey(key, i))
  }

  lemma NoPartIsFound(s: Books, key: string)
    requires FreshParts(s, key)
    ensures forall i: nat :: i < 4 ==> EntryByKey(s.entries, SplitKey(key, i)).None?
  {
    forall i: nat | i < 4 ensures EntryByKey(s.entries, SplitKey(key, i)).None? {
      assert FreshEntry(s, PartKey(key, i));
    }
  }

  lemma PartsAreValid(allocations: seq<Allocation>)
    ensures ValidAllocations(allocations) <==>
              2 <= |allocations| <= 4 && forall i :: 0 <= i < |allocations| ==>
                && 1 <= allocations[i].amount <= 10_000_000
                && (allocations[i].category == Cash || allocations[i].category == Card
                    || allocations[i].category == Upi || allocations[i].category == BankTransfer)
  {
    assert forall i :: 0 <= i < |allocations| ==> allocations[i] in allocations;
  }

  lemma SplitsAcceptedExactly(s: Books, c: Call)
    requires c.SplitCall? && FreshParts(s, c.key)
    ensures MaySplit(s, c) <==> !SplitPayment(s, c).1.Refused?
    ensures !MaySplit(s, c) ==> SplitPayment(s, c).0 == s
  {
    hide NetCharges, NetPayments, FolioSize, OnlineNet, Parts, OpenShiftOf, ValidAllocations, EntryByKey, AllocationTotal;
    TotalOfParts(c.allocations);
    NoPartIsFound(s, c.key);
    PartsAreValid(c.allocations);
    if c.booking < |s.bookings| {
      DrawerIsFound(s, s.bookings[c.booking].property, c.actor);
    }
  }

  lemma EntryPaysItsPart(s: Books, c: Call, shift: nat, i: nat)
    requires BookingsOk(s) && c.SplitCall? && ValidAllocations(c.allocations) && i < |c.allocations|
    requires ActiveStay(s, c.partner, c.booking) && IsDrawer(s, s.bookings[c.booking].property, c.actor, shift)
    ensures PaysPart(s, c, SplitEntry(s, c, shift, i), i)
  {
    assert ["_01", "_02", "_03", "_04"][i] == if i == 0 then "_01" else if i == 1 then "_02" else if i == 2 then "_03" else "_04";
  }

  lemma SplitsPayTheirParts(s: Books, c: Call)
    requires BookingsOk(s) && c.SplitCall? && FreshParts(s, c.key) && !SplitPayment(s, c).1.Refused?
    ensures c.booking < |s.bookings| && |c.allocations| <= 4
    ensures var (s', reply) := SplitPayment(s, c);
            && reply == EntryReply(|s.entries|) && |s'.entries| == |s.entries| + |c.allocations|
            && s' == s.(entries := s.entries + s'.entries[|s.entries|..])
            && forall j :: |s.entries| <= j < |s'.entries| ==> PaysPart(s, c, s'.entries[j], j - |s.entries|)
  {
    NoPartIsFound(s, c.key);
    hide NetCharges, NetPayments, FolioSize, OnlineNet, OpenShiftOf, EntryByKey, AllocationTotal, SplitEntries, PaysPart, SplitEntry;
    hide SplitKey, PartKey;
    var p := s.bookings[c.booking].property;
    DrawerIsFound(s, p, c.actor);
    var shift, n := OpenShiftOf(s.shifts, p, c.actor).value, |s.entries|;
    var s' := SplitPayment(s, c).0;
    assert s'.entries == s.entries + SplitEntries(s, c, shift, |c.allocations|);
    assert s'.entries[n..] == SplitEntries(s, c, shift, |c.allocations|);
    forall j | n <= j < |s'.entries| ensures PaysPart(s, c, s'.entries[j], j - n) {
      assert s'.entries[j] == SplitEntry(s, c, shift, j - n);
      EntryPaysItsPart(s, c, shift, j - n);
    }
  }

  lemma SplitsExactly(s: Books, c: Call)
    requires BookingsOk(s) && c.SplitCall? && FreshParts(s, c.key)
    ensures if MaySplit(s, c) then
              var (s', reply) := Apply(s, c);
              && reply == EntryReply(|s.entries|) && |s'.entries| == |s.entries| + |c.allocations|
              && s' == s.(entries := s.entries + s'.entries[|s.entries|..])
              && forall j :: |s.entries| <= j < |s'.entries| ==> PaysPart(s, c, s'.entries[j], j - |s.entries|)
            else Declined(s, c)
  {
    hide SplitPayment, PaysPart, FreshParts;
    SplitsAcceptedExactly(s, c);
    if MaySplit(s, c) {
      SplitsPayTheirParts(s, c);
    }
  }

  // ---- service orders ----

  ghost predicate MayOrder(s: Books, c: Call)
    requires c.PlaceOrderCall?
  {
    && 1 <= c.total <= 10_000_000 && Runs(s, c.partner, c.property)
    && (c.workflow == PosWorkflow <==> c.mode == RoomServiceMode || c.mode == OutletMode)
    && c.booking < |s.bookings| && s.bookings[c.booking].property == c.property
    && s.bookings[c.booking].confirmed && s.bookings[c.booking].stay == CheckedIn
    && (s.bookings[c.booking].hasRoom || c.mode == OutletMode)
  }

  lemma OrdersExactly(s: Books, c: Call)
    requires c.PlaceOrderCall?
    requires forall i :: 0 <= i < |s.orders| ==> s.orders[i].key != c.key
    requires forall i :: 0 <= i < |s.events| ==> s.events[i].key != c.key
    ensures if MayOrder(s, c) then
              var (s', reply) := Apply(s, c);
              && reply == OrderReply(|s.orders|) && |s'.orders| == |s.orders| + 1 && |s'.events| == |s.events| + 1
              && var o, e := s'.orders[|s.orders|], s'.events[|s.events|];
                 && s' == s.(orders := s.orders + [o], events := s.events + [e])
                 && o.partner == c.partner && o.property == c.property && o.booking == c.booking && o.mode == c.mode && o.total == c.total
                 && o.folioEntry == None && o.status == Placed && o.version == 1 && o.key == c.key
                 && BooksDay(s, c.property, c.today, o.date)
                 && o.request == OrderRequest(c.booking, c.total, c.details, c.partner, c.property, c.mode)
                 && e.order == |s.orders| && e.from == None && e.to == Placed && e.version == 1 && e.key == c.key && e.request == PlaceRequest(o.request)
            else Declined(s, c)
  {
  }

  // The moves that a mode knows.
  ghost predicate MoveKnown(mode: ServiceMode, from: OrderStatus, to: OrderStatus) {
    || (from == Placed && to == Accepted)
    || ((from == Placed || from == Accepted) && to == Cancelled)
    || (mode == MinibarMode && from == Accepted && to == Posted)
    || (mode != MinibarMode && ((from == Accepted && to == Preparing) || (from == Preparing && to == Ready) || (from == Ready && to == Posted)))
  }

  ghost predicate MayMove(s: Books, c: Call)
    requires c.MoveOrderCall?
  {
    && c.order < |s.orders|
    && var o := s.orders[c.order];
       && o.partner == c.partner && Runs(s, c.partner, o.property)
       && (c.workflow == PosWorkflow <==> o.mode == RoomServiceMode || o.mode == OutletMode)
       && c.version >= 1 && o.version == c.version && MoveKnown(o.mode, o.status, c.target)
       && (if c.target == Cancelled then |c.note| >= 8 else o.booking < |s.bookings| && s.bookings[o.booking].stay == CheckedIn)
  }

  // The charge of an order: its own amount, date and folio, under the category that goes with its mode.
  ghost predicate ChargeOf(e: Entry, o: Order) {
    && e.kind == Charge && e.amount == o.total && e.booking == o.booking && e.date == o.date && e.shift == None && e.reversalOf == None
    && (e.category == RoomService <==> o.mode == RoomServiceMode)
    && (e.category == Laundry <==> o.mode == LaundryMode)
    && (e.category == Minibar <==> o.mode == MinibarMode)
    && (e.category == Spa <==> o.mode == SpaMode)
    && (e.category == FoodAndBeverage <==> o.mode == OutletMode)
  }

  lemma MovesExactly(s: Books, c: Call)
    requires c.MoveOrderCall? && FreshEntry(s, c.serviceKey)
    requires forall i :: 0 <= i < |s.events| ==> s.events[i].key != c.key
    ensures if MayMove(s, c) then
              var (s', reply) := Apply(s, c);
              && reply == OrderReply(c.order) && |s'.orders| == |s.orders| && |s'.events| == |s.events| + 1
              && |s'.entries| == |s.entries| + (if c.target == Posted then 1 else 0)
              && var o, o', e := s.orders[c.order], s'.orders[c.order], s'.events[|s.events|];
                 && s' == s.(orders := s.orders[c.order := o'], events := s.events + [e], entries := s'.entries)
                 && s.entries <= s'.entries
                 && o' == o.(status := c.target, version := o.version + 1, folioEntry := o'.folioEntry)
                 && (if c.target == Posted
                     then o'.folioEntry == Some(|s.entries|) && ChargeOf(s'.entries[|s.entries|], o) && s'.entries[|s.entries|].key == c.serviceKey
                     else o'.folioEntry == o.folioEntry)
                 && e.order == c.order && e.from == Some(o.status) && e.to == c.target && e.version == o'.version && e.key == c.key
            else Declined(s, c)
  {
  }

  // Over every run: the charge of a posted order is of the category that goes with its mode.
  lemma {:induction false} ChargesFollowTheMode(calls: seq<Call>, o: nat)
    requires o < |Run(EMPTY, calls).orders| && Run(EMPTY, calls).orders[o].status == Posted
    ensures var s := Run(EMPTY, calls);
            && s.orders[o].folioEntry.Some? && s.orders[o].folioEntry.value < |s.entries|
            && var e, mode := s.entries[s.orders[o].folioEntry.value], s.orders[o].mode;
               && e.kind == Charge && e.amount == s.orders[o].total && e.booking == s.orders[o].booking && e.date == s.orders[o].date
               && (e.category == RoomService <==> mode == RoomServiceMode)
               && (e.category == Laundry <==> mode == LaundryMode)
               && (e.category == Minibar <==> mode == MinibarMode)
               && (e.category == Spa <==> mode == SpaMode)
               && (e.category == FoodAndBeverage <==> mode == OutletMode)
  {
    hide Run;
    PostedOrdersAreChargedOnce(calls, o);
  }

  // Over every run: the moves in the log of an order are those its mode knows.
  lemma {:induction false} MovesFollowTheMode(calls: seq<Call>, o: nat, k: nat)
    requires o < |Run(EMPTY, calls).orders| && 1 <= k < |LogOf(Run(EMPTY, calls).events, o)|
    ensures var s := Run(EMPTY, calls);
            var log := LogOf(s.events, o);
            MoveKnown(s.orders[o].mode, log[k - 1].to, log[k].to)
  {
    hide Run, LogOf;
    OrderLogsReplay(calls, o);
  }

  // ---- the nightly close ----

  // Nothing at the property stands against closing this date.
  ghost predicate Clear(s: Books, p: nat, date: int) {
    && (forall b :: 0 <= b < |s.bookings| && s.bookings[b].property == p && s.bookings[b].confirmed ==>
          && (s.bookings[b].stay == Reserved ==> date < s.bookings[b].checkIn)
          && (s.bookings[b].stay == CheckedIn ==> date < s.bookings[b].checkOut))
    && (forall i :: 0 <= i < |s.orders| && s.orders[i].property == p ==> s.orders[i].status == Posted || s.orders[i].status == Cancelled)
    && (forall k :: 0 <= k < |s.shifts| && s.shifts[k].property == p ==> !s.shifts[k].open)
  }

  // The close names the day of the books, which is not ahead of the calendar, and the version it was read in.
  ghost predicate MayAudit(s: Books, c: Call)
    requires c.CloseDayCall?
  {
    && |c.note| >= 8 && Runs(s, c.partner, c.property)
    && BooksDay(s, c.property, c.today, c.date) && c.date <= c.today && s.properties[c.property].dateVersion == c.version
  }

  // A day is closed exactly when the call is right and nothing stands against it; with anything standing against it the
  // right call is answered so, and only then.
  lemma DaysCloseExactlyWhenClear(s: Books, c: Call)
    requires Inv(s) && c.CloseDayCall? && forall k :: 0 <= k < |s.closes| ==> s.closes[k].key != c.key
    ensures if MayAudit(s, c) && Clear(s, c.property, c.date) && c.otherBlockers == 0 then
              var (s', reply) := Apply(s, c);
              && reply == CloseReply(|s.closes|) && |s'.closes| == |s.closes| + 1 && |s'.properties| == |s.properties|
              && var p, p', close := s.properties[c.property], s'.properties[c.property], s'.closes[|s.closes|];
                 && s' == s.(properties := s.properties[c.property := p'], closes := s.closes + [close])
                 && p' == p.(date := Some(c.date + 1), dateVersion := p.dateVersion + 1)
                 && close.property == c.property && close.date == c.date && close.next == c.date + 1 && close.key == c.key
            else Declined(s, c)
    ensures Apply(s, c).1 == Refused(CloseBlocked) <==> MayAudit(s, c) && (!Clear(s, c.property, c.date) || c.otherBlockers > 0)
  {
    NoDateIsClosedTwice(s, c);
    assert c.property < |s.properties| && Runs(s, c.partner, c.property) && BooksDay(s, c.property, c.today, c.date) ==>
             (Blocked(s, c.property, c.date, c.otherBlockers) <==> !Clear(s, c.property, c.date) || c.otherBlockers > 0) by {
      BlockedUnlessClear(s, c.property, c.date, c.otherBlockers);
    }
    hide Inv, Blocked, Clear;
  }

  lemma BlockedUnlessClear(s: Books, p: nat, date: int, others: nat)
    ensures Blocked(s, p, date, others) <==> !Clear(s, p, date) || others > 0
  {
  }

  // ---- stays ----

  ghost predicate MayStay(s: Books, c: Call)
    requires c.ChangeStayCall?
  {
    && c.booking < |s.bookings| && s.bookings[c.booking].confirmed
    && var b := s.bookings[c.booking];
       && b.property < |s.properties| && s.properties[b.property].partner == c.partner && s.properties[b.property].active
       && var p := s.properties[b.property];
          var day := if p.date.Some? then p.date.value else c.today;
          match c.next
          case CheckedIn => b.stay == Reserved && b.checkIn <= day < b.checkOut && c.roomsReady
          case NoShow => b.stay == Reserved && b.checkIn <= day
          case CheckedOut =>
            && b.stay == CheckedIn && Balance(s, c.booking) == 0
            && forall i :: 0 <= i < |s.orders| && s.orders[i].booking == c.booking ==> s.orders[i].status == Posted || s.orders[i].status == Cancelled
          case Reserved => false
  }

  lemma StaysChangeExactly(s: Books, c: Call)
    requires c.ChangeStayCall?
    ensures if MayStay(s, c) then
              var (s', reply) := Apply(s, c);
              && reply == Done && |s'.bookings| == |s.bookings|
              && var b, b' := s.bookings[c.booking], s'.bookings[c.booking];
                 && s' == s.(bookings := s.bookings[c.booking := b'])
                 && b' == b.(stay := c.next, hasRoom := b'.hasRoom)
                 && (b'.hasRoom <==> b.hasRoom || c.next == CheckedIn)
            else Declined(s, c)
  {
    hide NetCharges, NetPayments, OnlineNet;
  }

  // ---- used keys ----

  // A well-formed folio call under a used key is answered by the row of the key exactly if it is the same request, and
  // refused otherwise; it never changes anything.
  lemma UsedFolioKeys(s: Books, c: Call, i: nat)
    requires EntriesOk(s) && FolioCall(c) && WellFormed(c) && i < |s.entries| && s.entries[i].key == LookupKey(c)
    ensures Apply(s, c) == (s, if s.entries[i].request == RequestOf(c) then EntryReply(i) else Refused(KeyReused))
  {
    assert EntryByKey(s.entries, LookupKey(c)) == Some(i);
    hide EntryByKey;
  }

  lemma UsedDrawerKeys(s: Books, c: Call, k: nat)
    requires ShiftsOk(s) && k < |s.shifts|
    ensures c.OpenShiftCall? && s.shifts[k].openKey == c.key && 0 <= c.opening <= 10_000_000 ==>
              Apply(s, c) == (s, if s.shifts[k].partner == c.partner && s.shifts[k].property == c.property && s.shifts[k].actor == c.actor
                                    && s.shifts[k].opening == c.opening
                                 then ShiftReply(k) else Refused(KeyReused))
    ensures c.CloseShiftCall? && c.shift == k && s.shifts[k].closeKey == Some(c.key) && s.shifts[k].partner == c.partner
            && 0 <= c.declared <= 10_000_000 && c.version >= 1 ==>
              Apply(s, c) == (s, if s.shifts[k].closedBy == Some(c.actor) && s.shifts[k].declared == Some(c.declared)
                                 then ShiftReply(k) else Refused(KeyReused))
    ensures c.CloseShiftCall? && c.shift != k && s.shifts[k].closeKey == Some(c.key) ==> Declined(s, c)
  {
    if c.OpenShiftCall? && s.shifts[k].openKey == c.key {
      assert ShiftByOpenKey(s.shifts, c.key) == Some(k);
    }
    hide ShiftByOpenKey;
  }

  lemma UsedOrderKeys(s: Books, c: Call, i: nat)
    requires OrdersOk(s) && c.PlaceOrderCall? && i < |s.orders| && s.orders[i].key == c.key && 1 <= c.total <= 10_000_000
    requires c.workflow == PosWorkflow <==> c.mode == RoomServiceMode || c.mode == OutletMode
    ensures Apply(s, c) == (s, if s.orders[i].request == OrderRequest(c.booking, c.total, c.details, c.partner, c.property, c.mode)
                               then OrderReply(i) else Refused(KeyReused))
  {
    assert OrderByKey(s.orders, c.key) == Some(i);
    hide OrderByKey, OrdersOk;
  }

  lemma UsedMoveKeys(s: Books, c: Call, i: nat)
    requires EventsOk(s) && c.MoveOrderCall? && i < |s.events| && s.events[i].key == c.key && c.version >= 1
    ensures Apply(s, c).0 == s
    ensures s.events[i].request != MoveRequest(c.note, c.order, c.partner, c.target, c.version) ==> Apply(s, c).1 == Refused(KeyReused)
  {
    assert EventByKey(s.events, c.key) == Some(i);
    hide EventByKey, EventsOk;
  }

  lemma UsedCloseKeys(s: Books, c: Call, i: nat)
    requires ClosesOk(s) && c.CloseDayCall? && |c.note| >= 8 && c.version >= 0 && i < |s.closes| && s.closes[i].key == c.key
    ensures Apply(s, c) == (s, if s.closes[i].request == CloseRequest(c.date, c.note, c.partner, c.property) then CloseReply(i) else Refused(KeyReused))
  {
    assert CloseByKey(s.closes, c.key) == Some(i);
    hide CloseByKey, ClosesOk;
  }
}

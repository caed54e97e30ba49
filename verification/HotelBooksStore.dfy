// The services as they work: tables that transactions read row by row and rewrite in place.
// Each transaction is proved to be exactly one call of the books.

module HotelBooksStore {
  import opened Common
  import opened Lookup
  import opened Sums
  import opened HotelBooks

  class Store {
    var properties: seq<Property>
    var bookings: seq<Booking>
    var entries: seq<Entry>
    var shifts: seq<Shift>
    var orders: seq<Order>
    var events: seq<Event>
    var closes: seq<Close>

    ghost function Contents(): Books
      reads this
    {
      Books(properties, bookings, entries, shifts, orders, events, closes)
    }

    constructor ()
      ensures Contents() == EMPTY
    {
      properties, bookings, entries, shifts := [], [], [], [];
      orders, events, closes := [], [], [];
    }

    // ---- queries ----

    method FindEntry(key: string) returns (found: Option<nat>)
      ensures found == EntryByKey(entries, key)
    {
      found := FindLast(entries, WithEntryKey(key));
    }

    method FindEvent(key: string) returns (found: Option<nat>)
      ensures found == EventByKey(events, key)
    {
      found := FindLast(events, WithEventKey(key));
    }

    method FindOrder(key: string) returns (found: Option<nat>)
      ensures found == OrderByKey(orders, key)
    {
      found := FindLast(orders, WithOrderKey(key));
    }

    method FindShift(key: string) returns (found: Option<nat>)
      ensures found == ShiftByOpenKey(shifts, key)
    {
      found := FindLast(shifts, WithOpenKey(key));
    }

    method FindActiveShift(property: nat, actor: nat) returns (found: Option<nat>)
      ensures found == OpenShiftOf(shifts, property, actor)
    {
      found := FindLast(shifts, WithActiveKey(property, actor));
    }

    method FindClose(key: string) returns (found: Option<nat>)
      ensures found == CloseByKey(closes, key)
    {
      found := FindLast(closes, WithCloseKey(key));
    }

    // The folio of a booking, read entry by entry: how many entries it has and what remains to be paid.
    method ReadFolio(b: nat) returns (size: int, balance: int)
      requires b < |bookings|
      ensures size == FolioSize(entries, b) && balance == Balance(Contents(), b)
    {
      var charges: int := bookings[b].total;
      var payments: int := if bookings[b].online > bookings[b].refunds then bookings[b].online - bookings[b].refunds else 0;
      size := 0;
      for i := 0 to |entries|
        invariant size == Sum(FolioTerm(entries, b), i)
        invariant charges == bookings[b].total + Sum(ChargeTerm(entries, b), i)
        invariant payments == OnlineNet(bookings[b]) + Sum(PaymentTerm(entries, b), i)
      {
        var e := entries[i];
        if e.booking == b {
          size := size + 1;
          var reversed := if e.kind == Reversal && e.reversalOf.Some? && e.reversalOf.value < |entries|
                          then Some(entries[e.reversalOf.value].kind) else None;
          if e.kind == Charge {
            charges := charges + if e.category == Discount then 0 - e.amount else e.amount;
          }
          if e.kind == Payment {
            payments := payments + e.amount;
          }
          if reversed == Some(Charge) {
            charges := charges + if e.category == Discount then e.amount else 0 - e.amount;
          }
          if reversed == Some(Payment) {
            payments := payments - e.amount;
          }
        }
      }
      balance := charges - payments;
    }

    // The drawer of a shift, read entry by entry: how many entries it has and the cash that should be in it.
    method ReadDrawer(k: nat) returns (size: int, cash: int)
      requires k < |shifts|
      ensures size == ShiftSize(entries, k) && cash == ExpectedCash(Contents(), k)
    {
      size, cash := 0, shifts[k].opening;
      for i := 0 to |entries|
        invariant size == Sum(ShiftTerm(entries, k), i)
        invariant cash == shifts[k].opening + Sum(CashTerm(entries, k), i)
      {
        var e := entries[i];
        if e.shift == Some(k) {
          size := size + 1;
          if e.category == Cash {
            if e.kind == Payment {
              cash := cash + e.amount;
            } else if e.kind == Reversal && e.reversalOf.Some? && e.reversalOf.value < |entries|
                      && entries[e.reversalOf.value].kind == Payment {
              cash := cash - e.amount;
            }
          }
        }
      }
    }

    method CloseKeyTaken(key: string) returns (taken: bool)
      ensures taken <==> exists k :: 0 <= k < |shifts| && shifts[k].closeKey == Some(key)
    {
      taken := false;
      for k := 0 to |shifts|
        invariant taken <==> exists j :: 0 <= j < k && shifts[j].closeKey == Some(key)
      {
        taken := taken || shifts[k].closeKey == Some(key);
      }
    }

    method Reversed(entry: nat) returns (yes: bool)
      ensures yes == IsReversed(entries, entry)
    {
      yes := false;
      for i := 0 to |entries|
        invariant yes <==> exists j :: 0 <= j < i && entries[j].reversalOf == Some(entry)
      {
        yes := yes || entries[i].reversalOf == Some(entry);
      }
    }

    method CountActiveOrdersOf(b: nat) returns (n: nat)
      ensures n > 0 <==> exists i :: 0 <= i < |orders| && orders[i].booking == b && ActiveOrder(orders[i])
    {
      n := 0;
      for i := 0 to |orders|
        invariant n > 0 <==> exists j :: 0 <= j < i && orders[j].booking == b && ActiveOrder(orders[j])
      {
        if orders[i].booking == b && ActiveOrder(orders[i]) {
          n := n + 1;
        }
      }
    }

    // The blocking part of the audit snapshot: four counts over the tables, and what the rest of the checklist counts.
    method CountBlockers(p: nat, date: int, otherBlockers: nat) returns (n: nat)
      ensures n > 0 <==> Blocked(Contents(), p, date, otherBlockers)
    {
      var running, drawers, arrivals, departures := 0, 0, 0, 0;
      for i := 0 to |orders|
        invariant running >= 0
        invariant running > 0 <==> exists j :: 0 <= j < i && orders[j].property == p && ActiveOrder(orders[j])
      {
        running := running + if orders[i].property == p && ActiveOrder(orders[i]) then 1 else 0;
      }
      for i := 0 to |shifts|
        invariant drawers >= 0
        invariant drawers > 0 <==> exists j :: 0 <= j < i && shifts[j].property == p && shifts[j].open
      {
        drawers := drawers + if shifts[i].property == p && shifts[i].open then 1 else 0;
      }
      for i := 0 to |bookings|
        invariant arrivals >= 0 && departures >= 0
        invariant arrivals > 0 <==> exists j :: 0 <= j < i && UnresolvedArrival(bookings[j], p, date)
        invariant departures > 0 <==> exists j :: 0 <= j < i && OverdueDeparture(bookings[j], p, date)
      {
        arrivals := arrivals + if UnresolvedArrival(bookings[i], p, date) then 1 else 0;
        departures := departures + if OverdueDeparture(bookings[i], p, date) then 1 else 0;
      }
      n := running + drawers + arrivals + departures + otherBlockers;
    }

    // ---- cashier shifts ----

    method OpenShift(partner: nat, property: nat, actor: nat, opening: int, key: string, today: int) returns (reply: Reply)
      modifies this
      ensures (Contents(), reply) == HotelBooks.OpenShift(old(Contents()), OpenShiftCall(partner, property, actor, opening, key, today))
    {
      if opening < 0 || opening > MAX_AMOUNT {
        return Refused(InvalidAmount);
      }
      var existing := FindShift(key);
      if existing.Some? {
        var t := shifts[existing.value];
        if t.partner != partner || t.property != property || t.actor != actor || t.opening != opening {
          return Refused(KeyReused);
        }
        return ShiftReply(existing.value);
      }
      if !Manages(Books(properties, bookings, entries, shifts, orders, events, closes), partner, property) {
        return Refused(PropertyNotFound);
      }
      var active := FindActiveShift(property, actor);
      if active.Some? {
        return Refused(ShiftAlreadyOpen);
      }
      var date := OperationalDate(properties[property], today);
      reply := ShiftReply(|shifts|);
      shifts := shifts + [Shift(partner, property, actor, date, true, opening, None, 1, key, None, None)];
    }

    method CloseShift(partner: nat, shift: nat, actor: nat, version: int, declared: int, key: string) returns (reply: Reply)
      modifies this
      ensures (Contents(), reply) == HotelBooks.CloseShift(old(Contents()), CloseShiftCall(partner, shift, actor, version, declared, key))
    {
      if declared < 0 || declared > MAX_AMOUNT {
        return Refused(InvalidAmount);
      }
      if version < 1 {
        return Refused(StaleShift);
      }
      if shift >= |shifts| || shifts[shift].partner != partner {
        return Refused(ShiftNotFound);
      }
      var t := shifts[shift];
      if t.closeKey == Some(key) {
        if t.closedBy != Some(actor) || t.declared != Some(declared) {
          return Refused(KeyReused);
        }
        return ShiftReply(shift);
      }
      if !t.open || t.actor != actor || t.version != version {
        return Refused(StaleShift);
      }
      var size, expected := ReadDrawer(shift);
      if size > MAX_FOLIO_ENTRIES {
        return Refused(ShiftLimitReached);
      }
      if declared != expected {
        return Refused(CashMismatch);
      }
      var taken := CloseKeyTaken(key);
      if taken {
        return Refused(UniqueViolation);
      }
      shifts := shifts[shift := t.(open := false, closeKey := Some(key), closedBy := Some(actor),
                                   declared := Some(declared), version := t.version + 1)];
      return ShiftReply(shift);
    }

    // ---- folio entries ----

    method Post(partner: nat, booking: nat, actor: nat, admin: bool, kind: EntryKind, category: Category,
                amount: int, description: string, key: string, today: int)
      returns (reply: Reply)
      modifies this
      ensures (Contents(), reply) == HotelBooks.Post(old(Contents()),
                PostCall(partner, booking, actor, admin, kind, category, amount, description, key, today))
    {
      if kind == Reversal || !(if kind == Charge then ChargeCategory(category) else PaymentCategory(category)) {
        return Refused(InvalidCategory);
      }
      if !ValidAmount(amount) {
        return Refused(InvalidAmount);
      }
      if kind == Payment && !admin {
        return Refused(FinancePermissionRequired);
      }
      var request := PostRequest(booking, kind, category, amount, description);
      var existing := FindEntry(key);
      if existing.Some? {
        return if entries[existing.value].request == request then EntryReply(existing.value) else Refused(KeyReused);
      }
      if !ActiveStay(Books(properties, bookings, entries, shifts, orders, events, closes), partner, booking) {
        return Refused(BookingNotFound);
      }
      var size, balance := ReadFolio(booking);
      if size > MAX_FOLIO_ENTRIES {
        return Refused(FolioLimitReached);
      }
      var shift := None;
      if kind == Payment {
        if balance <= 0 || amount > balance {
          return Refused(PaymentExceedsBalance);
        }
        shift := FindActiveShift(bookings[booking].property, actor);
        if shift.None? {
          return Refused(OpenShiftRequired);
        }
      }
      var date := OperationalDate(properties[bookings[booking].property], today);
      reply := EntryReply(|entries|);
      entries := entries + [Entry(booking, kind, category, amount, date, shift, None, key, request)];
    }

    method Reverse(partner: nat, booking: nat, entry: nat, actor: nat, reason: string, key: string, today: int)
      returns (reply: Reply)
      modifies this
      ensures (Contents(), reply) == HotelBooks.Reverse(old(Contents()), ReverseCall(partner, booking, entry, actor, reason, key, today))
    {
      if |reason| < 8 {
        return Refused(InvalidReason);
      }
      var request := ReverseRequest(booking, entry, reason);
      var existing := FindEntry(key);
      if existing.Some? {
        return if entries[existing.value].request == request then EntryReply(existing.value) else Refused(KeyReused);
      }
      if !ManagedBooking(Books(properties, bookings, entries, shifts, orders, events, closes), partner, booking) {
        return Refused(BookingNotFound);
      }
      if entry >= |entries| || entries[entry].booking != booking || entries[entry].kind == Reversal {
        return Refused(EntryNotFound);
      }
      var original := entries[entry];
      var reversed := Reversed(entry);
      if reversed {
        return Refused(EntryAlreadyReversed);
      }
      var shift := None;
      if original.kind == Payment {
        shift := FindActiveShift(bookings[booking].property, actor);
        if shift.None? {
          return Refused(OpenShiftRequired);
        }
      }
      var date := OperationalDate(properties[bookings[booking].property], today);
      reply := EntryReply(|entries|);
      entries := entries + [Entry(booking, Reversal, original.category, original.amount, date, shift, Some(entry), key, request)];
    }

    method ApplyDiscount(partner: nat, booking: nat, actor: nat, admin: bool, amount: int, reason: string, expected: int,
                         key: string, today: int)
      returns (reply: Reply)
      modifies this
      ensures (Contents(), reply) == HotelBooks.ApplyDiscount(old(Contents()),
                DiscountCall(partner, booking, actor, admin, amount, reason, expected, key, today))
    {
      if !admin {
        return Refused(FinancePermissionRequired);
      }
      if |reason| < 8 {
        return Refused(InvalidReason);
      }
      if !ValidAmount(amount) || !ValidAmount(expected) {
        return Refused(InvalidAmount);
      }
      var request := DiscountRequest(actor, booking, amount, reason, expected, partner);
      var existing := FindEntry(key);
      if existing.Some? {
        return if entries[existing.value].request == request then EntryReply(existing.value) else Refused(KeyReused);
      }
      if !ActiveStay(Books(properties, bookings, entries, shifts, orders, events, closes), partner, booking) {
        return Refused(BookingNotFound);
      }
      var size, balance := ReadFolio(booking);
      if size > MAX_FOLIO_ENTRIES {
        return Refused(FolioLimitReached);
      }
      if balance != expected {
        return Refused(StaleFolio);
      }
      if amount > balance {
        return Refused(DiscountExceedsBalance);
      }
      var date := OperationalDate(properties[bookings[booking].property], today);
      reply := EntryReply(|entries|);
      entries := entries + [Entry(booking, Charge, Discount, amount, date, None, None, key, request)];
    }

    method TotalAllocated(allocations: seq<Allocation>) returns (total: int)
      ensures total == AllocationTotal(allocations)
    {
      total := 0;
      for i := 0 to |allocations|
        invariant total == AllocationTotal(allocations[..i])
      {
        assert allocations[..i + 1][..i] == allocations[..i];
        total := total + allocations[i].amount;
      }
      assert allocations[..|allocations|] == allocations;
    }

    method LaterSplitKeyTaken(base: string, n: nat) returns (taken: bool)
      requires 1 <= n <= 4
      ensures taken <==> exists i :: 0 < i < n && EntryByKey(entries, SplitKey(base, i)).Some?
    {
      taken := false;
      for i := 1 to n
        invariant taken <==> exists j :: 0 < j < i && EntryByKey(entries, SplitKey(base, j)).Some?
      {
        var found := FindEntry(SplitKey(base, i));
        taken := taken || found.Some?;
      }
    }

    method SplitPayment(partner: nat, booking: nat, actor: nat, admin: bool, allocations: seq<Allocation>, expected: int,
                        key: string, today: int)
      returns (reply: Reply)
      modifies this
      ensures (Contents(), reply) == HotelBooks.SplitPayment(old(Contents()),
                SplitCall(partner, booking, actor, admin, allocations, expected, key, today))
    {
      ghost var before := Contents();
      ghost var call := SplitCall(partner, booking, actor, admin, allocations, expected, key, today);
      hide EntryByKey, OpenShiftOf, FolioSize, NetCharges, NetPayments, AllocationTotal;
      if !admin {
        return Refused(FinancePermissionRequired);
      }
      if |key| > 93 {
        return Refused(InvalidKey);
      }
      if !ValidAllocations(allocations) {
        return Refused(InvalidSplit);
      }
      if !ValidAmount(expected) {
        return Refused(InvalidAmount);
      }
      var request := SplitRequest(allocations, actor, booking, expected, partner);
      var existing := FindEntry(SplitKey(key, 0));
      if existing.Some? {
        return if entries[existing.value].request == request then EntryReply(existing.value) else Refused(KeyReused);
      }
      if !ActiveStay(Books(properties, bookings, entries, shifts, orders, events, closes), partner, booking) {
        return Refused(BookingNotFound);
      }
      var size, balance := ReadFolio(booking);
      if size > MAX_FOLIO_ENTRIES {
        return Refused(FolioLimitReached);
      }
      if balance != expected {
        return Refused(StaleFolio);
      }
      var total := TotalAllocated(allocations);
      if total != balance {
        return Refused(SplitTotalMismatch);
      }
      var shift := FindActiveShift(bookings[booking].property, actor);
      if shift.None? {
        return Refused(OpenShiftRequired);
      }
      // The database refuses the whole transaction when a later key is already taken.
      var taken := LaterSplitKeyTaken(key, |allocations|);
      if taken {
        return Refused(UniqueViolation);
      }
      var date := OperationalDate(properties[bookings[booking].property], today);
      reply := EntryReply(|entries|);
      for i := 0 to |allocations|
        invariant Contents() == before.(entries := before.entries + SplitEntries(before, call, shift.value, i))
      {
        assert allocations[i] in allocations;
        var e := Entry(booking, Payment, allocations[i].category, allocations[i].amount, date, shift, None, SplitKey(key, i), request);
        assert e == SplitEntry(before, call, shift.value, i);
        entries := entries + [e];
      }
    }

    // ---- service orders ----

    method PlaceOrder(workflow: Workflow, partner: nat, property: nat, booking: nat, mode: ServiceMode, total: int,
                      details: string, key: string, today: int)
      returns (reply: Reply)
      modifies this
      ensures (Contents(), reply) == HotelBooks.PlaceOrder(old(Contents()),
                PlaceOrderCall(workflow, partner, property, booking, mode, total, details, key, today))
    {
      if !WorkflowMode(workflow, mode) || !ValidAmount(total) {
        return Refused(InvalidOrder);
      }
      var request := OrderRequest(booking, total, details, partner, property, mode);
      var existing := FindOrder(key);
      if existing.Some? {
        return if orders[existing.value].request != request then Refused(KeyReused) else OrderReply(existing.value);
      }
      if !Manages(Books(properties, bookings, entries, shifts, orders, events, closes), partner, property) {
        return Refused(PropertyNotFound);
      }
      if booking >= |bookings| || bookings[booking].property != property || !bookings[booking].confirmed
         || bookings[booking].stay != CheckedIn {
        return Refused(StayNotFound);
      }
      if mode != OutletMode && !bookings[booking].hasRoom {
        return Refused(RoomAssignmentRequired);
      }
      var clash := FindEvent(key);
      if clash.Some? {
        return Refused(UniqueViolation);
      }
      var date := OperationalDate(properties[property], today);
      reply := OrderReply(|orders|);
      events := events + [Event(|orders|, None, Placed, 1, key, PlaceRequest(request))];
      orders := orders + [Order(partner, property, booking, None, mode, total, date, Placed, 1, key, request)];
    }

    method MoveOrder(workflow: Workflow, partner: nat, order: nat, target: OrderStatus, version: int, note: string,
                     key: string, serviceKey: string)
      returns (reply: Reply)
      modifies this
      ensures (Contents(), reply) == HotelBooks.MoveOrder(old(Contents()),
                MoveOrderCall(workflow, partner, order, target, version, note, key, serviceKey))
    {
      if version < 1 {
        return Refused(StaleOrder);
      }
      var request := MoveRequest(note, order, partner, target, version);
      var existing := FindEvent(key);
      if existing.Some? {
        var e := events[existing.value];
        if e.request != request {
          return Refused(KeyReused);
        }
        if e.order >= |orders| || orders[e.order].partner != partner || !WorkflowMode(workflow, orders[e.order].mode) {
          return Refused(OrderNotFound);
        }
        return OrderReply(e.order);
      }
      if order >= |orders| || orders[order].partner != partner || !WorkflowMode(workflow, orders[order].mode) {
        return Refused(OrderNotFound);
      }
      var o := orders[order];
      if o.version != version {
        return Refused(StaleOrder);
      }
      if target !in NextStatuses(o.mode, o.status) {
        return Refused(InvalidTransition);
      }
      if target == Cancelled && |note| < 8 {
        return Refused(InvalidReason);
      }
      if !Manages(Books(properties, bookings, entries, shifts, orders, events, closes), partner, o.property) {
        return Refused(PropertyNotFound);
      }
      if target != Cancelled && (o.booking >= |bookings| || bookings[o.booking].stay != CheckedIn) {
        return Refused(StayNotActive);
      }
      var folioEntry := o.folioEntry;
      if target == Posted {
        var clash := FindEntry(serviceKey);
        if clash.Some? {
          return Refused(UniqueViolation);
        }
        folioEntry := Some(|entries|);
        entries := entries + [Entry(o.booking, Charge, FolioCategory(o.mode), o.total, o.date, None, None, serviceKey,
                                    ServiceRequest(o.total, FolioCategory(o.mode), order))];
      }
      orders := orders[order := o.(status := target, version := o.version + 1, folioEntry := folioEntry)];
      events := events + [Event(order, Some(o.status), target, o.version + 1, key, request)];
      return OrderReply(order);
    }

    // ---- night audit ----

    method DateClosed(property: nat, date: int) returns (closed: bool)
      ensures closed <==> exists k :: 0 <= k < |closes| && closes[k].property == property && closes[k].date == date
    {
      closed := false;
      for k := 0 to |closes|
        invariant closed <==> exists j :: 0 <= j < k && closes[j].property == property && closes[j].date == date
      {
        closed := closed || (closes[k].property == property && closes[k].date == date);
      }
    }

    method CloseDay(partner: nat, property: nat, date: int, version: int, note: string, otherBlockers: nat,
                    key: string, today: int)
      returns (reply: Reply)
      modifies this
      ensures (Contents(), reply) == HotelBooks.CloseDay(old(Contents()),
                CloseDayCall(partner, property, date, version, note, otherBlockers, key, today))
    {
      if |note| < 8 {
        return Refused(InvalidReason);
      }
      if version < 0 {
        return Refused(StaleDate);
      }
      var request := CloseRequest(date, note, partner, property);
      var existing := FindClose(key);
      if existing.Some? {
        return if closes[existing.value].request != request then Refused(KeyReused) else CloseReply(existing.value);
      }
      if !Manages(Books(properties, bookings, entries, shifts, orders, events, closes), partner, property) {
        return Refused(PropertyNotFound);
      }
      var p := properties[property];
      var operational := OperationalDate(p, today);
      if operational != date || p.dateVersion != version {
        return Refused(StaleDate);
      }
      if operational > today {
        return Refused(FutureDate);
      }
      var blockers := CountBlockers(property, operational, otherBlockers);
      if blockers > 0 {
        return Refused(CloseBlocked);
      }
      var closed := DateClosed(property, operational);
      if closed {
        return Refused(UniqueViolation);
      }
      properties := properties[property := p.(date := Some(operational + 1), dateVersion := p.dateVersion + 1)];
      reply := CloseReply(|closes|);
      closes := closes + [Close(property, operational, operational + 1, key, request)];
    }

    // ---- stays ----

    method ChangeStay(partner: nat, booking: nat, next: Stay, roomsReady: bool, today: int) returns (reply: Reply)
      modifies this
      ensures (Contents(), reply) == HotelBooks.ChangeStay(old(Contents()), ChangeStayCall(partner, booking, next, roomsReady, today))
    {
      if booking >= |bookings| {
        return Refused(BookingNotFound);
      }
      var b := bookings[booking];
      if b.property >= |properties| || properties[b.property].partner != partner || !properties[b.property].active || !b.confirmed {
        return Refused(BookingNotFound);
      }
      var date := OperationalDate(properties[b.property], today);
      if (next in {CheckedIn, NoShow} && date < b.checkIn) || (next == CheckedIn && date >= b.checkOut) {
        return Refused(StayTimingViolation);
      }
      if !((b.stay == CheckedIn && next == CheckedOut) || (b.stay == Reserved && next in {CheckedIn, NoShow})) {
        return Refused(InvalidStayTransition);
      }
      if next == CheckedIn && !roomsReady {
        return Refused(RoomAssignmentRequired);
      }
      if next == CheckedOut {
        var running := CountActiveOrdersOf(booking);
        if running > 0 {
          return Refused(OpenServiceOrders);
        }
        var _, balance := ReadFolio(booking);
        if balance != 0 {
          return Refused(if balance > 0 then OutstandingBalance else UnresolvedCredit);
        }
      }
      bookings := bookings[booking := b.(stay := next, hasRoom := b.hasRoom || next == CheckedIn)];
      return Done;
    }
  }
}

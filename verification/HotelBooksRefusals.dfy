// Refusals of the hotel books tell the truth: whatever a call answers when it is refused is so on the rows.

module HotelBooksRefusals {
  import opened Common
  import opened Sums
  import opened HotelBooks
  import opened HotelBooksOutcomes

  ghost predicate KeyTaken(s: Books, key: string, request: EntryRequest) {
    exists i :: 0 <= i < |s.entries| && s.entries[i].key == key && s.entries[i].request != request
  }

  ghost predicate HasDrawer(s: Books, p: nat, actor: nat) { exists k: nat :: IsDrawer(s, p, actor, k) }

  // A stay that is booked or in the house, at a property the partner runs.
  ghost predicate Staying(s: Books, partner: nat, b: nat) {
    ConfirmedAt(s, partner, b) && (s.bookings[b].stay == Reserved || s.bookings[b].stay == CheckedIn)
  }

  ghost predicate InRange(amount: int) { 1 <= amount <= 10_000_000 }

  // ---- drawers ----

  ghost predicate WhyNotOpened(s: Books, c: Call, e: Error)
    requires c.OpenShiftCall?
  {
    match e
    case InvalidAmount => c.opening < 0 || c.opening > 10_000_000
    case KeyReused => exists k :: 0 <= k < |s.shifts| && s.shifts[k].openKey == c.key
                        && (s.shifts[k].partner != c.partner || s.shifts[k].property != c.property || s.shifts[k].actor != c.actor
                            || s.shifts[k].opening != c.opening)
    case PropertyNotFound => !Runs(s, c.partner, c.property)
    case ShiftAlreadyOpen => HasDrawer(s, c.property, c.actor)
    case _ => false
  }

  lemma OpeningsRefusedTruly(s: Books, c: Call)
    requires c.OpenShiftCall? && Apply(s, c).1.Refused?
    ensures WhyNotOpened(s, c, Apply(s, c).1.error)
  {
    DrawerIsFound(s, c.property, c.actor);
  }

  ghost predicate WhyNotClosed(s: Books, c: Call, e: Error)
    requires c.CloseShiftCall?
  {
    match e
    case InvalidAmount => c.declared < 0 || c.declared > 10_000_000
    case ShiftNotFound => c.shift >= |s.shifts| || s.shifts[c.shift].partner != c.partner
    case StaleShift => c.version < 1 || (c.shift < |s.shifts| && (!s.shifts[c.shift].open || s.shifts[c.shift].actor != c.actor
                                                                  || s.shifts[c.shift].version != c.version))
    case KeyReused => c.shift < |s.shifts| && s.shifts[c.shift].closeKey == Some(c.key)
                      && (s.shifts[c.shift].closedBy != Some(c.actor) || s.shifts[c.shift].declared != Some(c.declared))
    case ShiftLimitReached => ShiftSize(s.entries, c.shift) > 100
    case CashMismatch => c.shift < |s.shifts| && c.declared != s.shifts[c.shift].opening + DrawerCash(s.entries, c.shift)
    case UniqueViolation => exists k :: 0 <= k < |s.shifts| && k != c.shift && s.shifts[k].closeKey == Some(c.key)
    case _ => false
  }

  lemma ClosingsRefusedTruly(s: Books, c: Call)
    requires c.CloseShiftCall? && Apply(s, c).1.Refused?
    ensures WhyNotClosed(s, c, Apply(s, c).1.error)
  {
  }

  // ---- the folio ----

  ghost predicate WhyNotPosted(s: Books, c: Call, e: Error)
    requires c.PostCall?
  {
    match e
    case InvalidCategory =>
      c.kind == Reversal || (c.kind == Payment <==> !(c.category == Cash || c.category == Card || c.category == Upi || c.category == BankTransfer))
      || c.category == Discount
    case InvalidAmount => !InRange(c.amount)
    case FinancePermissionRequired => c.kind == Payment && !c.admin
    case KeyReused => KeyTaken(s, c.key, PostRequest(c.booking, c.kind, c.category, c.amount, c.description))
    case BookingNotFound => !Staying(s, c.partner, c.booking)
    case FolioLimitReached => FolioSize(s.entries, c.booking) > 100
    case PaymentExceedsBalance => c.kind == Payment && c.booking < |s.bookings| && Balance(s, c.booking) < c.amount
    case OpenShiftRequired => c.kind == Payment && c.booking < |s.bookings| && !HasDrawer(s, s.bookings[c.booking].property, c.actor)
    case _ => false
  }

  lemma PostingsRefusedTruly(s: Books, c: Call)
    requires c.PostCall? && Apply(s, c).1.Refused?
    ensures WhyNotPosted(s, c, Apply(s, c).1.error)
  {
    if c.booking < |s.bookings| {
      DrawerIsFound(s, s.bookings[c.booking].property, c.actor);
    }
    hide NetCharges, NetPayments, FolioSize, OnlineNet, OpenShiftOf, EntryByKey;
  }

  ghost predicate WhyNotReversed(s: Books, c: Call, e: Error)
    requires c.ReverseCall?
  {
    match e
    case InvalidReason => |c.reason| < 8
    case KeyReused => KeyTaken(s, c.key, ReverseRequest(c.booking, c.entry, c.reason))
    case BookingNotFound => !ConfirmedAt(s, c.partner, c.booking)
    case EntryNotFound => c.entry >= |s.entries| || s.entries[c.entry].booking != c.booking || s.entries[c.entry].kind == Reversal
    case EntryAlreadyReversed => exists j :: 0 <= j < |s.entries| && s.entries[j].reversalOf == Some(c.entry)
    case OpenShiftRequired => c.entry < |s.entries| && s.entries[c.entry].kind == Payment && c.booking < |s.bookings|
                              && !HasDrawer(s, s.bookings[c.booking].property, c.actor)
    case _ => false
  }

  lemma ReversalsRefusedTruly(s: Books, c: Call)
    requires c.ReverseCall? && Apply(s, c).1.Refused?
    ensures WhyNotReversed(s, c, Apply(s, c).1.error)
  {
    if c.booking < |s.bookings| {
      DrawerIsFound(s, s.bookings[c.booking].property, c.actor);
    }
    hide OpenShiftOf, EntryByKey;
  }

  ghost predicate WhyNotDiscounted(s: Books, c: Call, e: Error)
    requires c.DiscountCall?
  {
    match e
    case FinancePermissionRequired => !c.admin
    case InvalidReason => |c.reason| < 8
    case InvalidAmount => !InRange(c.amount) || !InRange(c.expected)
    case KeyReused => KeyTaken(s, c.key, DiscountRequest(c.actor, c.booking, c.amount, c.reason, c.expected, c.partner))
    case BookingNotFound => !Staying(s, c.partner, c.booking)
    case FolioLimitReached => FolioSize(s.entries, c.booking) > 100
    case StaleFolio => c.booking < |s.bookings| && Balance(s, c.booking) != c.expected
    case DiscountExceedsBalance => c.booking < |s.bookings| && c.amount > Balance(s, c.booking)
    case _ => false
  }

  lemma DiscountsRefusedTruly(s: Books, c: Call)
    requires c.DiscountCall? && Apply(s, c).1.Refused?
    ensures WhyNotDiscounted(s, c, Apply(s, c).1.error)
  {
    hide NetCharges, NetPayments, FolioSize, OnlineNet, EntryByKey;
  }

  ghost predicate WhyNotSplit(s: Books, c: Call, e: Error)
    requires c.SplitCall?
  {
    match e
    case FinancePermissionRequired => !c.admin
    case InvalidKey => |c.key| > 93
    case InvalidSplit => |c.allocations| < 2 || |c.allocations| > 4
                         || exists i :: 0 <= i < |c.allocations| && (!InRange(c.allocations[i].amount)
                              || !(c.allocations[i].category == Cash || c.allocations[i].category == Card
                                   || c.allocations[i].category == Upi || c.allocations[i].category == BankTransfer))
    case InvalidAmount => !InRange(c.expected)
    case KeyReused => KeyTaken(s, c.key + "_01", SplitRequest(c.allocations, c.actor, c.booking, c.expected, c.partner))
    case BookingNotFound => !Staying(s, c.partner, c.booking)
    case FolioLimitReached => FolioSize(s.entries, c.booking) > 100
    case StaleFolio => c.booking < |s.bookings| && Balance(s, c.booking) != c.expected
    case SplitTotalMismatch => c.booking < |s.bookings| && Sum(Parts(c.allocations), |c.allocations|) != Balance(s, c.booking)
    case OpenShiftRequired => c.booking < |s.bookings| && !HasDrawer(s, s.bookings[c.booking].property, c.actor)
    case UniqueViolation => exists i: nat :: 0 < i < 4 && !FreshEntry(s, PartKey(c.key, i))
    case _ => false
  }

  lemma PartIsTaken(s: Books, c: Call)
    requires c.SplitCall?
    ensures forall i: nat :: i < 4 ==> (FreshEntry(s, PartKey(c.key, i)) <==> EntryByKey(s.entries, SplitKey(c.key, i)).None?)
  {
    forall i: nat | i < 4 ensures FreshEntry(s, PartKey(c.key, i)) <==> EntryByKey(s.entries, SplitKey(c.key, i)).None? {
    }
  }

  // The call itself is in order and its key is fresh.
  ghost predicate SplitInOrder(s: Books, c: Call)
    requires c.SplitCall?
  {
    c.admin && |c.key| <= 93 && ValidAllocations(c.allocations) && InRange(c.expected) && EntryByKey(s.entries, SplitKey(c.key, 0)).None?
  }

  lemma DisorderedSplitsRefusedTruly(s: Books, c: Call)
    requires c.SplitCall? && SplitPayment(s, c).1.Refused? && !SplitInOrder(s, c)
    ensures WhyNotSplit(s, c, SplitPayment(s, c).1.error)
  {
    PartsAreValid(c.allocations);
    hide NetCharges, NetPayments, FolioSize, OnlineNet, Balance, Parts, OpenShiftOf, ValidAllocations, EntryByKey, AllocationTotal, SplitEntries;
  }

  lemma OrderlySplitsRefusedTruly(s: Books, c: Call)
    requires c.SplitCall? && SplitPayment(s, c).1.Refused? && SplitInOrder(s, c)
    ensures WhyNotSplit(s, c, SplitPayment(s, c).1.error)
  {
    TotalOfParts(c.allocations);
    if c.booking < |s.bookings| {
      DrawerIsFound(s, s.bookings[c.booking].property, c.actor);
    }
    PartIsTaken(s, c);
    hide NetCharges, NetPayments, FolioSize, OnlineNet, Balance, Parts, OpenShiftOf, EntryByKey, AllocationTotal, SplitEntries;
    hide FreshEntry, SplitKey, PartKey, IsDrawer, Retried, KeyTaken;
  }

  lemma SplitsRefusedTruly(s: Books, c: Call)
    requires c.SplitCall? && Apply(s, c).1.Refused?
    ensures WhyNotSplit(s, c, Apply(s, c).1.error)
  {
    hide SplitPayment, WhyNotSplit, SplitInOrder;
    if SplitInOrder(s, c) {
      OrderlySplitsRefusedTruly(s, c);
    } else {
      DisorderedSplitsRefusedTruly(s, c);
    }
  }

  // ---- service orders ----

  ghost predicate RightDesk(w: Workflow, m: ServiceMode) { w == PosWorkflow <==> m == RoomServiceMode || m == OutletMode }

  ghost predicate WhyNotPlaced(s: Books, c: Call, e: Error)
    requires c.PlaceOrderCall?
  {
    match e
    case InvalidOrder => !RightDesk(c.workflow, c.mode) || !InRange(c.total)
    case KeyReused => exists i :: 0 <= i < |s.orders| && s.orders[i].key == c.key
                        && s.orders[i].request != OrderRequest(c.booking, c.total, c.details, c.partner, c.property, c.mode)
    case PropertyNotFound => !Runs(s, c.partner, c.property)
    case StayNotFound => !(c.booking < |s.bookings| && s.bookings[c.booking].property == c.property && s.bookings[c.booking].confirmed
                           && s.bookings[c.booking].stay == CheckedIn)
    case RoomAssignmentRequired => c.mode != OutletMode && c.booking < |s.bookings| && !s.bookings[c.booking].hasRoom
    case UniqueViolation => exists i :: 0 <= i < |s.events| && s.events[i].key == c.key
    case _ => false
  }

  lemma OrdersRefusedTruly(s: Books, c: Call)
    requires c.PlaceOrderCall? && Apply(s, c).1.Refused?
    ensures WhyNotPlaced(s, c, Apply(s, c).1.error)
  {
    hide OrderByKey, EventByKey;
  }

  ghost predicate WhyNotMoved(s: Books, c: Call, e: Error)
    requires c.MoveOrderCall?
  {
    match e
    case KeyReused => exists i :: 0 <= i < |s.events| && s.events[i].key == c.key
                        && s.events[i].request != MoveRequest(c.note, c.order, c.partner, c.target, c.version)
    case OrderNotFound =>
      || !(c.order < |s.orders| && s.orders[c.order].partner == c.partner && RightDesk(c.workflow, s.orders[c.order].mode))
      || exists i :: 0 <= i < |s.events| && s.events[i].key == c.key
           && !(s.events[i].order < |s.orders| && s.orders[s.events[i].order].partner == c.partner
                && RightDesk(c.workflow, s.orders[s.events[i].order].mode))
    case StaleOrder => c.version < 1 || (c.order < |s.orders| && s.orders[c.order].version != c.version)
    case InvalidTransition => c.order < |s.orders| && !MoveKnown(s.orders[c.order].mode, s.orders[c.order].status, c.target)
    case InvalidReason => c.target == Cancelled && |c.note| < 8
    case PropertyNotFound => c.order < |s.orders| && !Runs(s, c.partner, s.orders[c.order].property)
    case StayNotActive => c.target != Cancelled && c.order < |s.orders|
                          && !(s.orders[c.order].booking < |s.bookings| && s.bookings[s.orders[c.order].booking].stay == CheckedIn)
    case UniqueViolation => c.target == Posted && !FreshEntry(s, c.serviceKey)
    case _ => false
  }

  lemma MovesRefusedTruly(s: Books, c: Call)
    requires c.MoveOrderCall? && Apply(s, c).1.Refused?
    ensures WhyNotMoved(s, c, Apply(s, c).1.error)
  {
    hide EntryByKey, EventByKey;
  }

  // ---- the nightly close and stays ----

  ghost predicate WhyDayNotClosed(s: Books, c: Call, e: Error)
    requires c.CloseDayCall?
  {
    match e
    case InvalidReason => |c.note| < 8
    case KeyReused => exists i :: 0 <= i < |s.closes| && s.closes[i].key == c.key
                        && s.closes[i].request != CloseRequest(c.date, c.note, c.partner, c.property)
    case PropertyNotFound => !Runs(s, c.partner, c.property)
    case StaleDate => c.version < 0 || !BooksDay(s, c.property, c.today, c.date)
                      || (c.property < |s.properties| && s.properties[c.property].dateVersion != c.version)
    case FutureDate => c.date > c.today
    case CloseBlocked => !Clear(s, c.property, c.date) || c.otherBlockers > 0
    case UniqueViolation => exists k :: 0 <= k < |s.closes| && s.closes[k].property == c.property && s.closes[k].date == c.date
    case _ => false
  }

  lemma DaysRefusedTruly(s: Books, c: Call)
    requires c.CloseDayCall? && Apply(s, c).1.Refused?
    ensures WhyDayNotClosed(s, c, Apply(s, c).1.error)
  {
    BlockedUnlessClear(s, c.property, c.date, c.otherBlockers);
    hide CloseByKey, Blocked, Clear;
  }

  ghost predicate WhyNotStayed(s: Books, c: Call, e: Error)
    requires c.ChangeStayCall?
  {
    if e == BookingNotFound then
      !(c.booking < |s.bookings| && s.bookings[c.booking].confirmed
        && s.bookings[c.booking].property < |s.properties| && s.properties[s.bookings[c.booking].property].partner == c.partner
        && s.properties[s.bookings[c.booking].property].active)
    else
      && c.booking < |s.bookings|
      && var b := s.bookings[c.booking];
         match e
         case StayTimingViolation =>
           && (c.next == CheckedIn || c.next == NoShow)
           && forall day :: BooksDay(s, b.property, c.today, day) ==> day < b.checkIn || (c.next == CheckedIn && b.checkOut <= day)
         case InvalidStayTransition =>
           !(b.stay == CheckedIn && c.next == CheckedOut) && !(b.stay == Reserved && (c.next == CheckedIn || c.next == NoShow))
         case RoomAssignmentRequired => c.next == CheckedIn && !c.roomsReady
         case OpenServiceOrders =>
           c.next == CheckedOut && exists i :: 0 <= i < |s.orders| && s.orders[i].booking == c.booking
                                     && s.orders[i].status != Posted && s.orders[i].status != Cancelled
         case OutstandingBalance => c.next == CheckedOut && Balance(s, c.booking) > 0
         case UnresolvedCredit => c.next == CheckedOut && Balance(s, c.booking) < 0
         case _ => false
  }

  lemma StaysRefusedTruly(s: Books, c: Call)
    requires c.ChangeStayCall? && Apply(s, c).1.Refused?
    ensures WhyNotStayed(s, c, Apply(s, c).1.error)
  {
    hide NetCharges, NetPayments, OnlineNet;
  }
}

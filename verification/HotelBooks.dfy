// The books of managed hotels: folio entries, cashier shifts, service orders and the nightly close.
// Tables are sequences and a row's identifier is its position. Dates are day numbers, amounts whole rupees.
// A request fingerprint is the request itself, so two fingerprints are equal exactly when the requests are.

module HotelBooks {
  import opened Common
  import opened Lookup
  import opened Sums

  datatype EntryKind = Charge | Payment | Reversal
  datatype Category =
    | RoomService | FoodAndBeverage | Laundry | Minibar | Spa | Damage | OtherCharge | Discount
    | Cash | Card | Upi | BankTransfer

  datatype Stay = Reserved | CheckedIn | CheckedOut | NoShow
  datatype OrderStatus = Placed | Accepted | Preparing | Ready | Posted | Cancelled
  datatype ServiceMode = RoomServiceMode | OutletMode | LaundryMode | MinibarMode | SpaMode
  datatype Workflow = PosWorkflow | GuestServiceWorkflow

  // date is None while the stored operational date is blank.
  datatype Property = Property(partner: nat, managed: bool, active: bool, date: Option<int>, dateVersion: nat)

  // online is the captured online payment, refunds the approved online refunds.
  datatype Booking = Booking(property: nat, confirmed: bool, stay: Stay, checkIn: int, checkOut: int,
                             total: nat, online: nat, refunds: nat, hasRoom: bool)

  datatype Allocation = Allocation(amount: int, category: Category, payer: string)

  datatype EntryRequest =
    | PostRequest(booking: nat, kind: EntryKind, category: Category, amount: int, description: string)
    | ReverseRequest(booking: nat, entry: nat, reason: string)
    | DiscountRequest(actor: nat, booking: nat, amount: int, reason: string, expected: int, partner: nat)
    | SplitRequest(allocations: seq<Allocation>, actor: nat, booking: nat, expected: int, partner: nat)
    | ServiceRequest(amount: int, category: Category, order: nat)

  datatype Entry = Entry(booking: nat, kind: EntryKind, category: Category, amount: nat, date: int,
                         shift: Option<nat>, reversalOf: Option<nat>, key: string, request: EntryRequest)

  datatype Shift = Shift(partner: nat, property: nat, actor: nat, date: int, open: bool, opening: nat,
                         declared: Option<int>, version: nat, openKey: string, closeKey: Option<string>,
                         closedBy: Option<nat>)

  datatype OrderRequest = OrderRequest(booking: nat, total: int, details: string, partner: nat, property: nat, mode: ServiceMode)
  datatype Order = Order(partner: nat, property: nat, booking: nat, folioEntry: Option<nat>, mode: ServiceMode,
                         total: nat, date: int, status: OrderStatus, version: nat, key: string, request: OrderRequest)

  datatype EventRequest =
    | PlaceRequest(placed: OrderRequest)
    | MoveRequest(note: string, order: nat, partner: nat, target: OrderStatus, version: int)
  datatype Event = Event(order: nat, from: Option<OrderStatus>, to: OrderStatus, version: nat, key: string, request: EventRequest)

  datatype CloseRequest = CloseRequest(date: int, note: string, partner: nat, property: nat)
  datatype Close = Close(property: nat, date: int, next: int, key: string, request: CloseRequest)

  datatype Books = Books(properties: seq<Property>, bookings: seq<Booking>, entries: seq<Entry>, shifts: seq<Shift>,
                         orders: seq<Order>, events: seq<Event>, closes: seq<Close>)

  const EMPTY := Books([], [], [], [], [], [], [])

  datatype Error =
    | InvalidAmount | InvalidCategory | InvalidReason | InvalidSplit | InvalidKey | InvalidOrder | InvalidTransition
    | FinancePermissionRequired | KeyReused | UniqueViolation
    | PropertyNotFound | BookingNotFound | EntryNotFound | ShiftNotFound | OrderNotFound | StayNotFound
    | FolioLimitReached | ShiftLimitReached | PaymentExceedsBalance | OpenShiftRequired | ShiftAlreadyOpen
    | StaleShift | CashMismatch | EntryAlreadyReversed | StaleFolio | DiscountExceedsBalance | SplitTotalMismatch
    | RoomAssignmentRequired | StaleOrder | StayNotActive
    | StaleDate | FutureDate | CloseBlocked
    | StayTimingViolation | InvalidStayTransition | OpenServiceOrders | OutstandingBalance | UnresolvedCredit

  datatype Reply =
    | Refused(error: Error)
    | EntryReply(entry: nat)
    | ShiftReply(shift: nat)
    | OrderReply(order: nat)
    | CloseReply(close: nat)
    | Done

  // One call of a service with the values it is given; today is the property's calendar day at that moment.
  datatype Call =
    | OpenShiftCall(partner: nat, property: nat, actor: nat, opening: int, key: string, today: int)
    | CloseShiftCall(partner: nat, shift: nat, actor: nat, version: int, declared: int, key: string)
    | PostCall(partner: nat, booking: nat, actor: nat, admin: bool, kind: EntryKind, category: Category,
               amount: int, description: string, key: string, today: int)
    | ReverseCall(partner: nat, booking: nat, entry: nat, actor: nat, reason: string, key: string, today: int)
    | DiscountCall(partner: nat, booking: nat, actor: nat, admin: bool, amount: int, reason: string, expected: int,
                   key: string, today: int)
    | SplitCall(partner: nat, booking: nat, actor: nat, admin: bool, allocations: seq<Allocation>, expected: int,
                key: string, today: int)
    | PlaceOrderCall(workflow: Workflow, partner: nat, property: nat, booking: nat, mode: ServiceMode, total: int,
                     details: string, key: string, today: int)
    | MoveOrderCall(workflow: Workflow, partner: nat, order: nat, target: OrderStatus, version: int, note: string,
                    key: string, serviceKey: string)
    | CloseDayCall(partner: nat, property: nat, date: int, version: int, note: string, otherBlockers: nat,
                   key: string, today: int)
    | ChangeStayCall(partner: nat, booking: nat, next: Stay, roomsReady: bool, today: int)
    // What other parts of the system do to the rows these services read.
    | AddPropertyCall(partner: nat, managed: bool)
    | SetActiveCall(property: nat, active: bool)
    | AddBookingCall(property: nat, checkIn: int, checkOut: int, bookingTotal: nat, online: nat)
    | AmendBookingCall(booking: nat, confirmed: bool, checkIn: int, checkOut: int, bookingTotal: nat, online: nat,
                       refunds: nat)

  const MAX_AMOUNT := 10_000_000
  const MAX_FOLIO_ENTRIES := 100

  predicate ValidAmount(amount: int) { 1 <= amount <= MAX_AMOUNT }

  predicate ChargeCategory(c: Category) {
    c in {RoomService, FoodAndBeverage, Laundry, Minibar, Spa, Damage, OtherCharge}
  }

  predicate PaymentCategory(c: Category) { c in {Cash, Card, Upi, BankTransfer} }

  predicate Manages(s: Books, partner: nat, p: nat) {
    p < |s.properties| && s.properties[p].partner == partner && s.properties[p].managed && s.properties[p].active
  }

  predicate ManagedBooking(s: Books, partner: nat, b: nat) {
    b < |s.bookings| && Manages(s, partner, s.bookings[b].property) && s.bookings[b].confirmed
  }

  predicate ActiveStay(s: Books, partner: nat, b: nat) {
    ManagedBooking(s, partner, b) && s.bookings[b].stay in {Reserved, CheckedIn}
  }

  function OperationalDate(p: Property, today: int): int {
    match p.date case Some(d) => d case None => today
  }

  // ---- lookups ----

  function WithEntryKey(key: string): Entry -> bool { (x: Entry) => x.key == key }

  function EntryByKey(es: seq<Entry>, key: string): (r: Option<nat>)
    ensures r.Some? ==> r.value < |es| && es[r.value].key == key
    ensures r.None? <==> forall i :: 0 <= i < |es| ==> es[i].key != key
  {
    LastWhere(es, WithEntryKey(key))
  }

  function WithEventKey(key: string): Event -> bool { (x: Event) => x.key == key }

  function EventByKey(es: seq<Event>, key: string): (r: Option<nat>)
    ensures r.Some? ==> r.value < |es| && es[r.value].key == key
    ensures r.None? <==> forall i :: 0 <= i < |es| ==> es[i].key != key
  {
    LastWhere(es, WithEventKey(key))
  }

  function WithOrderKey(key: string): Order -> bool { (x: Order) => x.key == key }

  function OrderByKey(os: seq<Order>, key: string): (r: Option<nat>)
    ensures r.Some? ==> r.value < |os| && os[r.value].key == key
    ensures r.None? <==> forall i :: 0 <= i < |os| ==> os[i].key != key
  {
    LastWhere(os, WithOrderKey(key))
  }

  function WithOpenKey(key: string): Shift -> bool { (x: Shift) => x.openKey == key }

  function ShiftByOpenKey(ss: seq<Shift>, key: string): (r: Option<nat>)
    ensures r.Some? ==> r.value < |ss| && ss[r.value].openKey == key
    ensures r.None? <==> forall i :: 0 <= i < |ss| ==> ss[i].openKey != key
  {
    LastWhere(ss, WithOpenKey(key))
  }

  function WithCloseKey(key: string): Close -> bool { (x: Close) => x.key == key }

  function CloseByKey(cs: seq<Close>, key: string): (r: Option<nat>)
    ensures r.Some? ==> r.value < |cs| && cs[r.value].key == key
    ensures r.None? <==> forall i :: 0 <= i < |cs| ==> cs[i].key != key
  {
    LastWhere(cs, WithCloseKey(key))
  }

  // A shift's active key is its property and cashier while it is open.
  predicate ActiveKey(t: Shift, property: nat, actor: nat) {
    t.open && t.property == property && t.actor == actor
  }

  function WithActiveKey(property: nat, actor: nat): Shift -> bool { (x: Shift) => ActiveKey(x, property, actor) }

  function OpenShiftOf(ss: seq<Shift>, property: nat, actor: nat): (r: Option<nat>)
    ensures r.Some? ==> r.value < |ss| && ActiveKey(ss[r.value], property, actor)
    ensures r.None? <==> forall i :: 0 <= i < |ss| ==> !ActiveKey(ss[i], property, actor)
  {
    LastWhere(ss, WithActiveKey(property, actor))
  }

  predicate IsReversed(es: seq<Entry>, i: nat) {
    exists j :: 0 <= j < |es| && es[j].reversalOf == Some(i)
  }

  predicate ActiveOrder(o: Order) { o.status in {Placed, Accepted, Preparing, Ready} }

  // ---- folio arithmetic ----

  function Signed(e: Entry): int {
    if e.category == Discount then 0 - e.amount else e.amount
  }

  predicate Reverses(es: seq<Entry>, e: Entry, kind: EntryKind) {
    e.kind == Reversal && e.reversalOf.Some? && e.reversalOf.value < |es| && es[e.reversalOf.value].kind == kind
  }

  function ChargeEffect(es: seq<Entry>, e: Entry): int {
    if e.kind == Charge then Signed(e) else if Reverses(es, e, Charge) then -Signed(e) else 0
  }

  function PaymentEffect(es: seq<Entry>, e: Entry): int {
    if e.kind == Payment then e.amount else if Reverses(es, e, Payment) then 0 - e.amount else 0
  }

  function CashEffect(es: seq<Entry>, e: Entry): int {
    if e.category == Cash then PaymentEffect(es, e) else 0
  }

  function ChargeTerm(es: seq<Entry>, b: nat): nat -> int {
    (i: nat) => if i < |es| && es[i].booking == b then ChargeEffect(es, es[i]) else 0
  }

  function PaymentTerm(es: seq<Entry>, b: nat): nat -> int {
    (i: nat) => if i < |es| && es[i].booking == b then PaymentEffect(es, es[i]) else 0
  }

  function CashTerm(es: seq<Entry>, k: nat): nat -> int {
    (i: nat) => if i < |es| && es[i].shift == Some(k) then CashEffect(es, es[i]) else 0
  }

  function FolioTerm(es: seq<Entry>, b: nat): nat -> int {
    (i: nat) => if i < |es| && es[i].booking == b then 1 else 0
  }

  function ShiftTerm(es: seq<Entry>, k: nat): nat -> int {
    (i: nat) => if i < |es| && es[i].shift == Some(k) then 1 else 0
  }

  function NetCharges(es: seq<Entry>, b: nat): int { Sum(ChargeTerm(es, b), |es|) }
  function NetPayments(es: seq<Entry>, b: nat): int { Sum(PaymentTerm(es, b), |es|) }
  function DrawerCash(es: seq<Entry>, k: nat): int { Sum(CashTerm(es, k), |es|) }
  function FolioSize(es: seq<Entry>, b: nat): int { Sum(FolioTerm(es, b), |es|) }
  function ShiftSize(es: seq<Entry>, k: nat): int { Sum(ShiftTerm(es, k), |es|) }

  function OnlineNet(b: Booking): nat {
    if b.online > b.refunds then b.online - b.refunds else 0
  }

  function Balance(s: Books, b: nat): int
    requires b < |s.bookings|
  {
    s.bookings[b].total + NetCharges(s.entries, b) - OnlineNet(s.bookings[b]) - NetPayments(s.entries, b)
  }

  function ExpectedCash(s: Books, k: nat): int
    requires k < |s.shifts|
  {
    s.shifts[k].opening + DrawerCash(s.entries, k)
  }

  // ---- cashier shifts ----

  function OpenShift(s: Books, c: Call): (Books, Reply)
    requires c.OpenShiftCall?
  {
    if !(0 <= c.opening <= MAX_AMOUNT) then (s, Refused(InvalidAmount))
    else
      var found := ShiftByOpenKey(s.shifts, c.key);
      if found.Some? then
        var t := s.shifts[found.value];
        if t.partner != c.partner || t.property != c.property || t.actor != c.actor || t.opening != c.opening
        then (s, Refused(KeyReused)) else (s, ShiftReply(found.value))
      else if !Manages(s, c.partner, c.property) then (s, Refused(PropertyNotFound))
      else if OpenShiftOf(s.shifts, c.property, c.actor).Some? then (s, Refused(ShiftAlreadyOpen))
      else
        var t := Shift(c.partner, c.property, c.actor, OperationalDate(s.properties[c.property], c.today), true,
                       c.opening, None, 1, c.key, None, None);
        (s.(shifts := s.shifts + [t]), ShiftReply(|s.shifts|))
  }

  function CloseShift(s: Books, c: Call): (Books, Reply)
    requires c.CloseShiftCall?
  {
    if !(0 <= c.declared <= MAX_AMOUNT) then (s, Refused(InvalidAmount))
    else if c.version < 1 then (s, Refused(StaleShift))
    else if c.shift >= |s.shifts| || s.shifts[c.shift].partner != c.partner then (s, Refused(ShiftNotFound))
    else
      var t := s.shifts[c.shift];
      if t.closeKey == Some(c.key) then
        if t.closedBy != Some(c.actor) || t.declared != Some(c.declared) then (s, Refused(KeyReused))
        else (s, ShiftReply(c.shift))
      else if !t.open || t.actor != c.actor || t.version != c.version then (s, Refused(StaleShift))
      else if ShiftSize(s.entries, c.shift) > MAX_FOLIO_ENTRIES then (s, Refused(ShiftLimitReached))
      else if c.declared != ExpectedCash(s, c.shift) then (s, Refused(CashMismatch))
      else if exists k :: 0 <= k < |s.shifts| && s.shifts[k].closeKey == Some(c.key) then (s, Refused(UniqueViolation))
      else
        var closed := t.(open := false, closeKey := Some(c.key), closedBy := Some(c.actor),
                         declared := Some(c.declared), version := t.version + 1);
        (s.(shifts := s.shifts[c.shift := closed]), ShiftReply(c.shift))
  }

  // ---- folio entries ----

  function Append(s: Books, e: Entry): (Books, Reply) {
    (s.(entries := s.entries + [e]), EntryReply(|s.entries|))
  }

  // What an existing row under the key answers.
  function Retried(s: Books, found: nat, request: EntryRequest): (Books, Reply)
    requires found < |s.entries|
  {
    if s.entries[found].request == request then (s, EntryReply(found)) else (s, Refused(KeyReused))
  }

  function BookingDate(s: Books, b: nat, today: int): int
    requires b < |s.bookings| && s.bookings[b].property < |s.properties|
  {
    OperationalDate(s.properties[s.bookings[b].property], today)
  }

  function Post(s: Books, c: Call): (Books, Reply)
    requires c.PostCall?
  {
    if c.kind == Reversal || !(if c.kind == Charge then ChargeCategory(c.category) else PaymentCategory(c.category))
    then (s, Refused(InvalidCategory))
    else if !ValidAmount(c.amount) then (s, Refused(InvalidAmount))
    else if c.kind == Payment && !c.admin then (s, Refused(FinancePermissionRequired))
    else
      var request := PostRequest(c.booking, c.kind, c.category, c.amount, c.description);
      var found := EntryByKey(s.entries, c.key);
      if found.Some? then Retried(s, found.value, request)
      else if !ActiveStay(s, c.partner, c.booking) then (s, Refused(BookingNotFound))
      else if FolioSize(s.entries, c.booking) > MAX_FOLIO_ENTRIES then (s, Refused(FolioLimitReached))
      else if c.kind == Payment && (Balance(s, c.booking) <= 0 || c.amount > Balance(s, c.booking))
      then (s, Refused(PaymentExceedsBalance))
      else
        var shift := if c.kind == Payment then OpenShiftOf(s.shifts, s.bookings[c.booking].property, c.actor) else None;
        if c.kind == Payment && shift.None? then (s, Refused(OpenShiftRequired))
        else Append(s, Entry(c.booking, c.kind, c.category, c.amount, BookingDate(s, c.booking, c.today), shift, None, c.key, request))
  }

  function Reverse(s: Books, c: Call): (Books, Reply)
    requires c.ReverseCall?
  {
    if |c.reason| < 8 then (s, Refused(InvalidReason))
    else
      var request := ReverseRequest(c.booking, c.entry, c.reason);
      var found := EntryByKey(s.entries, c.key);
      if found.Some? then Retried(s, found.value, request)
      else if !ManagedBooking(s, c.partner, c.booking) then (s, Refused(BookingNotFound))
      else if c.entry >= |s.entries| || s.entries[c.entry].booking != c.booking || s.entries[c.entry].kind == Reversal
      then (s, Refused(EntryNotFound))
      else if IsReversed(s.entries, c.entry) then (s, Refused(EntryAlreadyReversed))
      else
        var original := s.entries[c.entry];
        var shift := if original.kind == Payment then OpenShiftOf(s.shifts, s.bookings[c.booking].property, c.actor) else None;
        if original.kind == Payment && shift.None? then (s, Refused(OpenShiftRequired))
        else Append(s, Entry(c.booking, Reversal, original.category, original.amount, BookingDate(s, c.booking, c.today),
                             shift, Some(c.entry), c.key, request))
  }

  function ApplyDiscount(s: Books, c: Call): (Books, Reply)
    requires c.DiscountCall?
  {
    if !c.admin then (s, Refused(FinancePermissionRequired))
    else if |c.reason| < 8 then (s, Refused(InvalidReason))
    else if !ValidAmount(c.amount) || !ValidAmount(c.expected) then (s, Refused(InvalidAmount))
    else
      var request := DiscountRequest(c.actor, c.booking, c.amount, c.reason, c.expected, c.partner);
      var found := EntryByKey(s.entries, c.key);
      if found.Some? then Retried(s, found.value, request)
      else if !ActiveStay(s, c.partner, c.booking) then (s, Refused(BookingNotFound))
      else if FolioSize(s.entries, c.booking) > MAX_FOLIO_ENTRIES then (s, Refused(FolioLimitReached))
      else if Balance(s, c.booking) != c.expected then (s, Refused(StaleFolio))
      else if c.amount > Balance(s, c.booking) then (s, Refused(DiscountExceedsBalance))
      else Append(s, Entry(c.booking, Charge, Discount, c.amount, BookingDate(s, c.booking, c.today), None, None, c.key, request))
  }

  function AllocationTotal(allocations: seq<Allocation>): int {
    if allocations == [] then 0
    else AllocationTotal(allocations[..|allocations| - 1]) + allocations[|allocations| - 1].amount
  }

  // The retry key of the payment with this position (positions have one digit: there are at most four).
  function SplitKey(base: string, index: nat): string
    requires index < 4
  {
    base + ["_01", "_02", "_03", "_04"][index]
  }

  predicate ValidAllocations(allocations: seq<Allocation>) {
    2 <= |allocations| <= 4
    && forall a <- allocations :: ValidAmount(a.amount) && PaymentCategory(a.category)
  }

  function SplitEntry(s: Books, c: Call, shift: nat, i: nat): Entry
    requires c.SplitCall? && ValidAllocations(c.allocations) && i < |c.allocations|
    requires ActiveStay(s, c.partner, c.booking)
  {
    assert c.allocations[i] in c.allocations;
    Entry(c.booking, Payment, c.allocations[i].category, c.allocations[i].amount, BookingDate(s, c.booking, c.today),
          Some(shift), None, SplitKey(c.key, i),
          SplitRequest(c.allocations, c.actor, c.booking, c.expected, c.partner))
  }

  function SplitEntries(s: Books, c: Call, shift: nat, n: nat): (r: seq<Entry>)
    requires c.SplitCall? && ValidAllocations(c.allocations) && n <= |c.allocations|
    requires ActiveStay(s, c.partner, c.booking)
    ensures |r| == n && forall i :: 0 <= i < n ==> r[i] == SplitEntry(s, c, shift, i)
  {
    if n == 0 then [] else SplitEntries(s, c, shift, n - 1) + [SplitEntry(s, c, shift, n - 1)]
  }

  function SplitPayment(s: Books, c: Call): (Books, Reply)
    requires c.SplitCall?
  {
    if !c.admin then (s, Refused(FinancePermissionRequired))
    else if |c.key| > 93 then (s, Refused(InvalidKey))
    else if !ValidAllocations(c.allocations) then (s, Refused(InvalidSplit))
    else if !ValidAmount(c.expected) then (s, Refused(InvalidAmount))
    else
      var request := SplitRequest(c.allocations, c.actor, c.booking, c.expected, c.partner);
      var found := EntryByKey(s.entries, SplitKey(c.key, 0));
      if found.Some? then Retried(s, found.value, request)
      else if !ActiveStay(s, c.partner, c.booking) then (s, Refused(BookingNotFound))
      else if FolioSize(s.entries, c.booking) > MAX_FOLIO_ENTRIES then (s, Refused(FolioLimitReached))
      else if Balance(s, c.booking) != c.expected then (s, Refused(StaleFolio))
      else if AllocationTotal(c.allocations) != Balance(s, c.booking) then (s, Refused(SplitTotalMismatch))
      else
        var shift := OpenShiftOf(s.shifts, s.bookings[c.booking].property, c.actor);
        if shift.None? then (s, Refused(OpenShiftRequired))
        else if exists i :: 0 < i < |c.allocations| && EntryByKey(s.entries, SplitKey(c.key, i)).Some?
        then (s, Refused(UniqueViolation))
        else (s.(entries := s.entries + SplitEntries(s, c, shift.value, |c.allocations|)), EntryReply(|s.entries|))
  }

  // ---- service orders ----

  predicate WorkflowMode(w: Workflow, m: ServiceMode) {
    if w == PosWorkflow then m in {RoomServiceMode, OutletMode} else m in {LaundryMode, MinibarMode, SpaMode}
  }

  function NextStatuses(m: ServiceMode, status: OrderStatus): set<OrderStatus> {
    match status
    case Placed => {Accepted, Cancelled}
    case Accepted => if m == MinibarMode then {Posted, Cancelled} else {Preparing, Cancelled}
    case Preparing => if m == MinibarMode then {} else {Ready}
    case Ready => if m == MinibarMode then {} else {Posted}
    case _ => {}
  }

  function FolioCategory(m: ServiceMode): Category {
    match m
    case RoomServiceMode => RoomService
    case LaundryMode => Laundry
    case MinibarMode => Minibar
    case SpaMode => Spa
    case OutletMode => FoodAndBeverage
  }

  function PlaceOrder(s: Books, c: Call): (Books, Reply)
    requires c.PlaceOrderCall?
  {
    if !WorkflowMode(c.workflow, c.mode) || !ValidAmount(c.total) then (s, Refused(InvalidOrder))
    else
      var request := OrderRequest(c.booking, c.total, c.details, c.partner, c.property, c.mode);
      var found := OrderByKey(s.orders, c.key);
      if found.Some? then
        if s.orders[found.value].request != request then (s, Refused(KeyReused)) else (s, OrderReply(found.value))
      else if !Manages(s, c.partner, c.property) then (s, Refused(PropertyNotFound))
      else if c.booking >= |s.bookings| || s.bookings[c.booking].property != c.property
              || !s.bookings[c.booking].confirmed || s.bookings[c.booking].stay != CheckedIn
      then (s, Refused(StayNotFound))
      else if c.mode != OutletMode && !s.bookings[c.booking].hasRoom then (s, Refused(RoomAssignmentRequired))
      else if EventByKey(s.events, c.key).Some? then (s, Refused(UniqueViolation))
      else
        var o := Order(c.partner, c.property, c.booking, None, c.mode, c.total,
                       OperationalDate(s.properties[c.property], c.today), Placed, 1, c.key, request);
        var e := Event(|s.orders|, None, Placed, 1, c.key, PlaceRequest(request));
        (s.(orders := s.orders + [o], events := s.events + [e]), OrderReply(|s.orders|))
  }

  // The charge that posting an order puts on the folio: it carries the order's own date.
  function OrderCharge(o: Order, id: nat, serviceKey: string): Entry {
    Entry(o.booking, Charge, FolioCategory(o.mode), o.total, o.date, None, None, serviceKey,
          ServiceRequest(o.total, FolioCategory(o.mode), id))
  }

  function MoveOrder(s: Books, c: Call): (Books, Reply)
    requires c.MoveOrderCall?
  {
    if c.version < 1 then (s, Refused(StaleOrder))
    else
      var request := MoveRequest(c.note, c.order, c.partner, c.target, c.version);
      var found := EventByKey(s.events, c.key);
      if found.Some? then
        var e := s.events[found.value];
        if e.request != request then (s, Refused(KeyReused))
        else if e.order >= |s.orders| || s.orders[e.order].partner != c.partner || !WorkflowMode(c.workflow, s.orders[e.order].mode)
        then (s, Refused(OrderNotFound))
        else (s, OrderReply(e.order))
      else if c.order >= |s.orders| || s.orders[c.order].partner != c.partner || !WorkflowMode(c.workflow, s.orders[c.order].mode)
      then (s, Refused(OrderNotFound))
      else
        var o := s.orders[c.order];
        if o.version != c.version then (s, Refused(StaleOrder))
        else if c.target !in NextStatuses(o.mode, o.status) then (s, Refused(InvalidTransition))
        else if c.target == Cancelled && |c.note| < 8 then (s, Refused(InvalidReason))
        else if !Manages(s, c.partner, o.property) then (s, Refused(PropertyNotFound))
        else if c.target != Cancelled && (o.booking >= |s.bookings| || s.bookings[o.booking].stay != CheckedIn)
        then (s, Refused(StayNotActive))
        else if c.target == Posted && EntryByKey(s.entries, c.serviceKey).Some? then (s, Refused(UniqueViolation))
        else
          var posted := c.target == Posted;
          var moved := o.(status := c.target, version := o.version + 1,
                          folioEntry := if posted then Some(|s.entries|) else o.folioEntry);
          var e := Event(c.order, Some(o.status), c.target, o.version + 1, c.key, request);
          (s.(entries := if posted then s.entries + [OrderCharge(o, c.order, c.serviceKey)] else s.entries,
              orders := s.orders[c.order := moved],
              events := s.events + [e]),
           OrderReply(c.order))
  }

  // ---- night audit ----

  predicate UnresolvedArrival(b: Booking, p: nat, date: int) {
    b.property == p && b.confirmed && b.stay == Reserved && b.checkIn <= date
  }

  predicate OverdueDeparture(b: Booking, p: nat, date: int) {
    b.property == p && b.confirmed && b.stay == CheckedIn && b.checkOut <= date
  }

  // Something on the checklist stands against closing this date.
  predicate Blocked(s: Books, p: nat, date: int, otherBlockers: nat) {
    || (exists i :: 0 <= i < |s.orders| && s.orders[i].property == p && ActiveOrder(s.orders[i]))
    || (exists k :: 0 <= k < |s.shifts| && s.shifts[k].property == p && s.shifts[k].open)
    || (exists b :: 0 <= b < |s.bookings| && UnresolvedArrival(s.bookings[b], p, date))
    || (exists b :: 0 <= b < |s.bookings| && OverdueDeparture(s.bookings[b], p, date))
    || otherBlockers > 0
  }

  function CloseDay(s: Books, c: Call): (Books, Reply)
    requires c.CloseDayCall?
  {
    if |c.note| < 8 then (s, Refused(InvalidReason))
    else if c.version < 0 then (s, Refused(StaleDate))
    else
      var request := CloseRequest(c.date, c.note, c.partner, c.property);
      var found := CloseByKey(s.closes, c.key);
      if found.Some? then
        if s.closes[found.value].request != request then (s, Refused(KeyReused)) else (s, CloseReply(found.value))
      else if !Manages(s, c.partner, c.property) then (s, Refused(PropertyNotFound))
      else
        var p := s.properties[c.property];
        var date := OperationalDate(p, c.today);
        if date != c.date || p.dateVersion != c.version then (s, Refused(StaleDate))
        else if date > c.today then (s, Refused(FutureDate))
        else if Blocked(s, c.property, date, c.otherBlockers) then (s, Refused(CloseBlocked))
        else if exists k :: 0 <= k < |s.closes| && s.closes[k].property == c.property && s.closes[k].date == date
        then (s, Refused(UniqueViolation))
        else
          (s.(properties := s.properties[c.property := p.(date := Some(date + 1), dateVersion := p.dateVersion + 1)],
              closes := s.closes + [Close(c.property, date, date + 1, c.key, request)]),
           CloseReply(|s.closes|))
  }

  // ---- stays ----

  function ChangeStay(s: Books, c: Call): (Books, Reply)
    requires c.ChangeStayCall?
  {
    if c.booking >= |s.bookings| then (s, Refused(BookingNotFound))
    else
      var b := s.bookings[c.booking];
      if b.property >= |s.properties| || s.properties[b.property].partner != c.partner || !s.properties[b.property].active
         || !b.confirmed
      then (s, Refused(BookingNotFound))
      else
        var date := OperationalDate(s.properties[b.property], c.today);
        if (c.next in {CheckedIn, NoShow} && date < b.checkIn) || (c.next == CheckedIn && date >= b.checkOut)
        then (s, Refused(StayTimingViolation))
        else if !((b.stay == CheckedIn && c.next == CheckedOut) || (b.stay == Reserved && c.next in {CheckedIn, NoShow}))
        then (s, Refused(InvalidStayTransition))
        else if c.next == CheckedIn && !c.roomsReady then (s, Refused(RoomAssignmentRequired))
        else if c.next == CheckedOut
                && exists i :: 0 <= i < |s.orders| && s.orders[i].booking == c.booking && ActiveOrder(s.orders[i])
        then (s, Refused(OpenServiceOrders))
        else if c.next == CheckedOut && Balance(s, c.booking) > 0 then (s, Refused(OutstandingBalance))
        else if c.next == CheckedOut && Balance(s, c.booking) < 0 then (s, Refused(UnresolvedCredit))
        else (s.(bookings := s.bookings[c.booking := b.(stay := c.next, hasRoom := b.hasRoom || c.next == CheckedIn)]), Done)
  }

  // ---- the rest of the system ----

  function Environment(s: Books, c: Call): (Books, Reply)
    requires c.AddPropertyCall? || c.SetActiveCall? || c.AddBookingCall? || c.AmendBookingCall?
  {
    match c
    case AddPropertyCall(partner, managed) =>
      (s.(properties := s.properties + [Property(partner, managed, true, None, 0)]), Done)
    case SetActiveCall(p, active) =>
      if p >= |s.properties| then (s, Refused(PropertyNotFound))
      else (s.(properties := s.properties[p := s.properties[p].(active := active)]), Done)
    case AddBookingCall(p, checkIn, checkOut, total, online) =>
      if p >= |s.properties| then (s, Refused(PropertyNotFound))
      else (s.(bookings := s.bookings + [Booking(p, true, Reserved, checkIn, checkOut, total, online, 0, false)]), Done)
    case AmendBookingCall(b, confirmed, checkIn, checkOut, total, online, refunds) =>
      if b >= |s.bookings| then (s, Refused(BookingNotFound))
      else (s.(bookings := s.bookings[b := s.bookings[b].(confirmed := confirmed, checkIn := checkIn, checkOut := checkOut,
                                                          total := total, online := online, refunds := refunds)]), Done)
  }

  function Apply(s: Books, c: Call): (Books, Reply) {
    if c.OpenShiftCall? then OpenShift(s, c)
    else if c.CloseShiftCall? then CloseShift(s, c)
    else if c.PostCall? then Post(s, c)
    else if c.ReverseCall? then Reverse(s, c)
    else if c.DiscountCall? then ApplyDiscount(s, c)
    else if c.SplitCall? then SplitPayment(s, c)
    else if c.PlaceOrderCall? then PlaceOrder(s, c)
    else if c.MoveOrderCall? then MoveOrder(s, c)
    else if c.CloseDayCall? then CloseDay(s, c)
    else if c.ChangeStayCall? then ChangeStay(s, c)
    else Environment(s, c)
  }

  // The books after a run of calls, in order.
  function Run(s: Books, calls: seq<Call>): Books {
    if calls == [] then s else Apply(Run(s, calls[..|calls| - 1]), calls[|calls| - 1]).0
  }
}

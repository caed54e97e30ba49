// Room holds: locks on date ranges, their conversion by confirmations, cancellation, amendment and expiry. A quote and
// an approval read the inventory first and write later; other requests may write in between.
// A quote and the lock created with it share an identifier. Nights are day numbers, the clock counts milliseconds.

module RoomInventory {
  import opened Common
  import opened Sums

  datatype LockStatus = Active | Converted | Released | Expired
  datatype Lock = Lock(room: nat, checkIn: int, checkOut: int, quantity: nat, status: LockStatus, expiresAt: int)

  // A confirmation between its compare-and-set and its end. Failed: the booking could not be saved, the lock not yet released.
  datatype Phase = Holding | Failed | Ended
  datatype Flight = Flight(lock: nat, key: string, phase: Phase)

  datatype Booking = Booking(lock: nat, key: string, confirmed: bool)
  datatype Review = Pending | Approved | Declined
  datatype Amendment = Amendment(booking: nat, checkIn: int, checkOut: int, review: Review)

  // A quote that found its rooms free: the limit and the reserved rooms it read. An approval that did, and whether it
  // has found the change still pending since.
  datatype Draft = Draft(room: nat, checkIn: int, checkOut: int, rooms: nat, limit: int, reserved: int)
  datatype Approval = Approval(amendment: nat, limit: int, reserved: int, checked: bool)

  datatype Desk = Desk(capacity: seq<nat>, overrides: map<(nat, int), nat>, now: int,
                       locks: seq<Lock>, flights: seq<Flight>, bookings: seq<Booking>, amendments: seq<Amendment>,
                       drafts: seq<Draft>, approvals: seq<Approval>)

  datatype Error =
    | InvalidStayDates | PastCheckIn | InvalidOccupancy | RoomUnavailable | CalendarRestriction | InventoryNotAvailable
    | PriceUnavailable | LockNotActive | NotInFlight | SaveRejected | BookingNotFound | BookingNotAmendable
    | AmendmentNotPending | AmendmentUnchanged | AmendmentAlreadyPending | InvalidLimit | NotLooked

  datatype Reply = Refused(error: Error) | LockReply(lock: nat) | FlightReply(flight: nat) | BookingReply(booking: nat)
                 | AmendmentReply(amendment: nat) | DraftReply(draft: nat) | ApprovalReply(approval: nat) | Done

  datatype Call =
    | TickCall(now: int)
    // A portal quote or a partner's direct quote; partnerLimit is the partner calendar's own limit, restricted its stop.
    | LookCall(room: nat, checkIn: int, checkOut: int, today: int, rooms: int, partnerLimit: Option<nat>,
               restricted: bool, priced: bool)
    | HoldCall(draft: nat)
    | ConvertCall(lock: nat, key: string)
    | SaveCall(flight: nat, accepted: bool)
    | ReleaseCall(flight: nat)
    | CancelCall(booking: nat)
    | ExpireCall(lock: nat)
    | RequestCall(booking: nat, checkIn: int, checkOut: int, today: int)
    | DeclineCall(amendment: nat)
    | ReviewCall(amendment: nat, today: int, priced: bool)
    | CheckCall(approval: nat)
    | MoveCall(approval: nat)
    | OverrideCall(room: nat, checkIn: int, checkOut: int, today: int, available: int)

  const HOLD_MILLISECONDS := 600_000

  // A lock that keeps rooms from others.
  predicate Live(l: Lock, now: int) {
    l.status == Converted || (l.status == Active && l.expiresAt > now)
  }

  predicate Covers(l: Lock, night: int) { l.checkIn <= night < l.checkOut }

  predicate Overlaps(l: Lock, checkIn: int, checkOut: int) { l.checkIn < checkOut && l.checkOut > checkIn }

  // Rooms of a type that are kept on one night.
  function NightTerm(locks: seq<Lock>, now: int, room: nat, night: int): nat -> int {
    (i: nat) => if i < |locks| && locks[i].room == room && Live(locks[i], now) && Covers(locks[i], night) then locks[i].quantity else 0
  }

  function Kept(s: Desk, room: nat, night: int): int { Sum(NightTerm(s.locks, s.now, room, night), |s.locks|) }

  // Rooms of a type kept by any lock that overlaps the stay, other than the excluded one.
  function StayTerm(locks: seq<Lock>, now: int, room: nat, checkIn: int, checkOut: int, excluded: int): nat -> int {
    (i: nat) =>
      if i < |locks| && i != excluded && locks[i].room == room && Live(locks[i], now) && Overlaps(locks[i], checkIn, checkOut)
      then locks[i].quantity else 0
  }

  function Reserved(s: Desk, room: nat, checkIn: int, checkOut: int, excluded: int): int {
    Sum(StayTerm(s.locks, s.now, room, checkIn, checkOut, excluded), |s.locks|)
  }

  // Reading the reservations of a room type first expires its overdue holds.
  function SweptLock(l: Lock, room: nat, now: int): Lock {
    if l.room == room && l.status == Active && l.expiresAt <= now then l.(status := Expired) else l
  }

  function Swept(locks: seq<Lock>, room: nat, now: int): (r: seq<Lock>)
    ensures |r| == |locks| && forall i :: 0 <= i < |locks| ==> r[i] == SweptLock(locks[i], room, now)
  {
    if locks == [] then [] else Swept(locks[..|locks| - 1], room, now) + [SweptLock(locks[|locks| - 1], room, now)]
  }

  // The smallest manual limit set on a night of the stay.
  function StayLimit(overrides: map<(nat, int), nat>, room: nat, checkIn: int, checkOut: int): Option<nat>
    decreases checkOut - checkIn
  {
    if checkOut <= checkIn then None
    else
      var before, night := StayLimit(overrides, room, checkIn, checkOut - 1), (room, checkOut - 1);
      if night !in overrides then before
      else if before.Some? && before.value < overrides[night] then before else Some(overrides[night])
  }

  function Limited(limit: int, other: Option<nat>): int {
    if other.Some? && other.value < limit then other.value else limit
  }

  // What a quote reads: it finds the rooms free, or is refused.
  function Look(s: Desk, c: Call): (Desk, Reply)
    requires c.LookCall?
  {
    if c.checkOut - c.checkIn < 1 then (s, Refused(InvalidStayDates))
    else if c.checkIn < c.today then (s, Refused(PastCheckIn))
    else if c.rooms < 1 then (s, Refused(InvalidOccupancy))
    else if c.room >= |s.capacity| then (s, Refused(RoomUnavailable))
    else
      var s1 := s.(locks := Swept(s.locks, c.room, s.now));
      var limit := Limited(Limited(s.capacity[c.room], StayLimit(s.overrides, c.room, c.checkIn, c.checkOut)), c.partnerLimit);
      var reserved := Reserved(s1, c.room, c.checkIn, c.checkOut, -1);
      if c.restricted then (s1, Refused(CalendarRestriction))
      else if limit - reserved < c.rooms then (s1, Refused(InventoryNotAvailable))
      else if !c.priced then (s1, Refused(PriceUnavailable))
      else (s1.(drafts := s1.drafts + [Draft(c.room, c.checkIn, c.checkOut, c.rooms, limit, reserved)]), DraftReply(|s.drafts|))
  }

  function DraftLock(d: Draft, now: int): Lock {
    Lock(d.room, d.checkIn, d.checkOut, d.rooms, Active, now + HOLD_MILLISECONDS)
  }

  // The lock of a quote, by what it read.
  function Hold(s: Desk, c: Call): (Desk, Reply)
    requires c.HoldCall?
  {
    if c.draft >= |s.drafts| then (s, Refused(NotLooked))
    else (s.(locks := s.locks + [DraftLock(s.drafts[c.draft], s.now)]), LockReply(|s.locks|))
  }

  // The compare-and-set that takes an unexpired active lock for one confirmation.
  function Convert(s: Desk, c: Call): (Desk, Reply)
    requires c.ConvertCall?
  {
    if c.lock >= |s.locks| || s.locks[c.lock].status != Active || s.locks[c.lock].expiresAt <= s.now
    then (s, Refused(LockNotActive))
    else (s.(locks := s.locks[c.lock := s.locks[c.lock].(status := Converted)],
             flights := s.flights + [Flight(c.lock, c.key, Holding)]),
          FlightReply(|s.flights|))
  }

  // Lock and retry key are unique among bookings.
  predicate Clashes(s: Desk, f: Flight) {
    exists b :: 0 <= b < |s.bookings| && (s.bookings[b].lock == f.lock || s.bookings[b].key == f.key)
  }

  function Save(s: Desk, c: Call): (Desk, Reply)
    requires c.SaveCall?
  {
    if c.flight >= |s.flights| || s.flights[c.flight].phase != Holding then (s, Refused(NotInFlight))
    else
      var f := s.flights[c.flight];
      if !c.accepted || Clashes(s, f)
      then (s.(flights := s.flights[c.flight := f.(phase := Failed)]), Refused(SaveRejected))
      else (s.(flights := s.flights[c.flight := f.(phase := Ended)], bookings := s.bookings + [Booking(f.lock, f.key, true)]),
            BookingReply(|s.bookings|))
  }

  function ReleasedLock(l: Lock, now: int): Lock {
    if l.status != Converted then l else if l.expiresAt > now then l.(status := Active) else l.(status := Expired)
  }

  function Release(s: Desk, c: Call): (Desk, Reply)
    requires c.ReleaseCall?
  {
    if c.flight >= |s.flights| || s.flights[c.flight].phase != Failed || s.flights[c.flight].lock >= |s.locks|
    then (s, Refused(NotInFlight))
    else
      var f := s.flights[c.flight];
      (s.(flights := s.flights[c.flight := f.(phase := Ended)], locks := s.locks[f.lock := ReleasedLock(s.locks[f.lock], s.now)]), Done)
  }

  function Cancel(s: Desk, c: Call): (Desk, Reply)
    requires c.CancelCall?
  {
    if c.booking >= |s.bookings| || s.bookings[c.booking].lock >= |s.locks| then (s, Refused(BookingNotFound))
    else
      var b := s.bookings[c.booking];
      (s.(bookings := s.bookings[c.booking := b.(confirmed := false)],
          locks := s.locks[b.lock := s.locks[b.lock].(status := Released)]), Done)
  }

  function Expire(s: Desk, c: Call): (Desk, Reply)
    requires c.ExpireCall?
  {
    if c.lock >= |s.locks| || s.locks[c.lock].status != Active || s.locks[c.lock].expiresAt > s.now then (s, Done)
    else (s.(locks := s.locks[c.lock := s.locks[c.lock].(status := Expired)]), Done)
  }

  predicate HasPending(s: Desk, b: nat) {
    exists a :: 0 <= a < |s.amendments| && s.amendments[a].booking == b && s.amendments[a].review == Pending
  }

  function RequestChange(s: Desk, c: Call): (Desk, Reply)
    requires c.RequestCall?
  {
    if c.booking >= |s.bookings| || !s.bookings[c.booking].confirmed || s.bookings[c.booking].lock >= |s.locks|
    then (s, Refused(BookingNotAmendable))
    else if c.checkOut - c.checkIn < 1 || c.checkIn < c.today then (s, Refused(InvalidStayDates))
    else
      var l := s.locks[s.bookings[c.booking].lock];
      if l.checkIn == c.checkIn && l.checkOut == c.checkOut then (s, Refused(AmendmentUnchanged))
      else if HasPending(s, c.booking) then (s, Refused(AmendmentAlreadyPending))
      else (s.(amendments := s.amendments + [Amendment(c.booking, c.checkIn, c.checkOut, Pending)]), AmendmentReply(|s.amendments|))
  }

  function Decline(s: Desk, c: Call): (Desk, Reply)
    requires c.DeclineCall?
  {
    if c.amendment >= |s.amendments| || s.amendments[c.amendment].review != Pending then (s, Refused(AmendmentNotPending))
    else (s.(amendments := s.amendments[c.amendment := s.amendments[c.amendment].(review := Declined)]), AmendmentReply(c.amendment))
  }

  // What the approval of a change reads.
  function ReviewChange(s: Desk, c: Call): (Desk, Reply)
    requires c.ReviewCall?
  {
    if c.amendment >= |s.amendments| || s.amendments[c.amendment].review != Pending then (s, Refused(AmendmentNotPending))
    else
      var a := s.amendments[c.amendment];
      if a.booking >= |s.bookings| || !s.bookings[a.booking].confirmed then (s, Refused(BookingNotAmendable))
      else if a.checkOut - a.checkIn < 1 || a.checkIn < c.today then (s, Refused(InvalidStayDates))
      else
        var id := s.bookings[a.booking].lock;
        if id >= |s.locks| || s.locks[id].room >= |s.capacity| then (s, Refused(PriceUnavailable))
        else
          var room, rooms := s.locks[id].room, s.locks[id].quantity;
          var s1 := s.(locks := Swept(s.locks, room, s.now));
          var limit := Limited(s.capacity[room], StayLimit(s.overrides, room, a.checkIn, a.checkOut));
          var reserved := Reserved(s1, room, a.checkIn, a.checkOut, id);
          if limit - reserved < rooms then (s1, Refused(InventoryNotAvailable))
          else if !c.priced then (s1, Refused(PriceUnavailable))
          else (s1.(approvals := s1.approvals + [Approval(c.amendment, limit, reserved, false)]), ApprovalReply(|s.approvals|))
  }

  // The change is still pending and its booking still confirmed.
  function Check(s: Desk, c: Call): (Desk, Reply)
    requires c.CheckCall?
  {
    if c.approval >= |s.approvals| || s.approvals[c.approval].amendment >= |s.amendments| then (s, Refused(NotLooked))
    else
      var a := s.amendments[s.approvals[c.approval].amendment];
      if a.review != Pending || a.booking >= |s.bookings| || !s.bookings[a.booking].confirmed then (s, Refused(AmendmentNotPending))
      else (s.(approvals := s.approvals[c.approval := s.approvals[c.approval].(checked := true)]), Done)
  }

  // The transaction that moves the lock: it looks at nothing again.
  function Move(s: Desk, c: Call): (Desk, Reply)
    requires c.MoveCall?
  {
    if c.approval >= |s.approvals| || !s.approvals[c.approval].checked || s.approvals[c.approval].amendment >= |s.amendments|
    then (s, Refused(NotLooked))
    else
      var id := s.approvals[c.approval].amendment;
      var a := s.amendments[id];
      if a.booking >= |s.bookings| || s.bookings[a.booking].lock >= |s.locks| then (s, Refused(NotLooked))
      else
        var lock := s.bookings[a.booking].lock;
        (s.(locks := s.locks[lock := s.locks[lock].(checkIn := a.checkIn, checkOut := a.checkOut)],
            amendments := s.amendments[id := a.(review := Approved)]),
         AmendmentReply(id))
  }

  function OverrideRange(overrides: map<(nat, int), nat>, room: nat, checkIn: int, checkOut: int, available: nat): map<(nat, int), nat>
    decreases checkOut - checkIn
  {
    if checkOut <= checkIn then overrides
    else OverrideRange(overrides, room, checkIn, checkOut - 1, available)[(room, checkOut - 1) := available]
  }

  // A range sets its own nights of its own room type, the night of departure excluded, and nothing else.
  lemma {:induction false} OverrideRangeSetsItsNights(overrides: map<(nat, int), nat>, room: nat, checkIn: int, checkOut: int,
                                                      available: nat, r: nat, night: int)
    ensures var set' := OverrideRange(overrides, room, checkIn, checkOut, available);
            if r == room && checkIn <= night < checkOut then (r, night) in set' && set'[(r, night)] == available
            else ((r, night) in set' <==> (r, night) in overrides)
                 && ((r, night) in overrides ==> set'[(r, night)] == overrides[(r, night)])
    decreases checkOut - checkIn
  {
    if checkIn < checkOut {
      OverrideRangeSetsItsNights(overrides, room, checkIn, checkOut - 1, available, r, night);
    }
  }

  function SetOverride(s: Desk, c: Call): (Desk, Reply)
    requires c.OverrideCall?
  {
    if c.checkOut - c.checkIn < 1 || c.checkIn < c.today then (s, Refused(InvalidStayDates))
    else if c.room >= |s.capacity| then (s, Refused(RoomUnavailable))
    else if !(0 <= c.available <= s.capacity[c.room]) then (s, Refused(InvalidLimit))
    else (s.(overrides := OverrideRange(s.overrides, c.room, c.checkIn, c.checkOut, c.available)), Done)
  }

  function Apply(s: Desk, c: Call): (Desk, Reply) {
    if c.TickCall? then (s.(now := if c.now > s.now then c.now else s.now), Done)
    else if c.LookCall? then Look(s, c)
    else if c.HoldCall? then Hold(s, c)
    else if c.ConvertCall? then Convert(s, c)
    else if c.SaveCall? then Save(s, c)
    else if c.ReleaseCall? then Release(s, c)
    else if c.CancelCall? then Cancel(s, c)
    else if c.ExpireCall? then Expire(s, c)
    else if c.RequestCall? then RequestChange(s, c)
    else if c.DeclineCall? then Decline(s, c)
    else if c.ReviewCall? then ReviewChange(s, c)
    else if c.CheckCall? then Check(s, c)
    else if c.MoveCall? then Move(s, c)
    else SetOverride(s, c)
  }

  function Run(s: Desk, calls: seq<Call>): Desk {
    if calls == [] then s else Apply(Run(s, calls[..|calls| - 1]), calls[|calls| - 1]).0
  }

  function Opening(capacity: seq<nat>, now: int): Desk { Desk(capacity, map[], now, [], [], [], [], [], []) }
}

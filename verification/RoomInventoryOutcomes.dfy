// What each call of the room inventory asks for and what it leaves, spelled on the locks, bookings and changes.

module RoomInventoryOutcomes {
  import opened Common
  import opened Sums
  import opened RoomInventory
  import opened RoomInventoryTheorems

  // The lock keeps its rooms from others now: it is confirmed, or held and still in time.
  ghost predicate KeepsRooms(l: Lock, now: int) {
    l.status == Converted || (l.status == Active && now < l.expiresAt)
  }

  // Rooms of a type that such locks keep on a night.
  ghost function Taken(s: Desk, room: nat, night: int): nat -> int {
    (i: nat) =>
      if i < |s.locks| && s.locks[i].room == room && KeepsRooms(s.locks[i], s.now) && s.locks[i].checkIn <= night < s.locks[i].checkOut
      then s.locks[i].quantity else 0
  }

  lemma NightsAreCounted(s: Desk, room: nat, night: int)
    ensures Kept(s, room, night) == Sum(Taken(s, room, night), |s.locks|)
  {
    SumSame(NightTerm(s.locks, s.now, room, night), Taken(s, room, night), |s.locks|);
  }

  // Rooms of a type that such locks keep on some night of a stay, one lock left out.
  ghost function TakenDuring(s: Desk, room: nat, checkIn: int, checkOut: int, except: int): nat -> int {
    (i: nat) =>
      if i < |s.locks| && i != except && s.locks[i].room == room && KeepsRooms(s.locks[i], s.now)
         && s.locks[i].checkIn < checkOut && checkIn < s.locks[i].checkOut
      then s.locks[i].quantity else 0
  }

  lemma StaysAreCounted(s: Desk, s1: Desk, room: nat, checkIn: int, checkOut: int, except: int)
    requires s1 == s.(locks := Swept(s.locks, room, s.now))
    ensures Reserved(s1, room, checkIn, checkOut, except) == Sum(TakenDuring(s, room, checkIn, checkOut, except), |s.locks|)
  {
    SumSame(StayTerm(s1.locks, s1.now, room, checkIn, checkOut, except), TakenDuring(s, room, checkIn, checkOut, except), |s.locks|);
  }

  // The limit is the least of the rooms there are and of the manual limits on the nights.
  ghost predicate IsLimit(s: Desk, room: nat, checkIn: int, checkOut: int, limit: int)
    requires room < |s.capacity|
  {
    && limit <= s.capacity[room]
    && (forall night :: checkIn <= night < checkOut && (room, night) in s.overrides ==> limit <= s.overrides[(room, night)])
    && (limit == s.capacity[room]
        || exists night :: checkIn <= night < checkOut && (room, night) in s.overrides && limit == s.overrides[(room, night)])
  }

  ghost predicate IsStayLimit(s: Desk, room: nat, checkIn: int, checkOut: int, limit: Option<nat>) {
    && (limit.None? ==> forall night :: checkIn <= night < checkOut ==> (room, night) !in s.overrides)
    && (limit.Some? ==>
          && (forall night :: checkIn <= night < checkOut && (room, night) in s.overrides ==> limit.value <= s.overrides[(room, night)])
          && exists night :: checkIn <= night < checkOut && (room, night) in s.overrides && limit.value == s.overrides[(room, night)])
  }

  lemma {:induction false} StayLimitIsLeast(s: Desk, room: nat, checkIn: int, checkOut: int)
    ensures IsStayLimit(s, room, checkIn, checkOut, StayLimit(s.overrides, room, checkIn, checkOut))
    decreases checkOut - checkIn
  {
    if checkIn < checkOut {
      StayLimitIsLeast(s, room, checkIn, checkOut - 1);
      var before, last := StayLimit(s.overrides, room, checkIn, checkOut - 1), checkOut - 1;
      if before.Some? {
        var night :| checkIn <= night < last && (room, night) in s.overrides && before.value == s.overrides[(room, night)];
        assert checkIn <= night < checkOut;
      }
      assert checkIn <= last < checkOut;
    }
  }

  lemma {:induction false} LimitIsLeast(s: Desk, room: nat, checkIn: int, checkOut: int)
    requires room < |s.capacity|
    ensures IsLimit(s, room, checkIn, checkOut, Limited(s.capacity[room], StayLimit(s.overrides, room, checkIn, checkOut)))
  {
    hide StayLimit;
    StayLimitIsLeast(s, room, checkIn, checkOut);
  }

  // Holds of a room type that ran out are written off when its inventory is read.
  ghost predicate WrittenOff(s: Desk, room: nat, locks: seq<Lock>) {
    && |locks| == |s.locks|
    && forall i :: 0 <= i < |locks| ==>
         locks[i] == if s.locks[i].room == room && s.locks[i].status == Active && s.locks[i].expiresAt <= s.now
                     then s.locks[i].(status := Expired) else s.locks[i]
  }

  ghost predicate MayLook(s: Desk, c: Call)
    requires c.LookCall?
  {
    c.checkIn < c.checkOut && c.today <= c.checkIn && c.rooms >= 1 && c.room < |s.capacity|
  }

  // A quote that is in order finds its rooms when, beside what is taken during the stay, they fit under every limit.
  lemma LooksExactly(s: Desk, c: Call, limit: int)
    requires c.LookCall?
    requires MayLook(s, c) ==> IsLimit(s, c.room, c.checkIn, c.checkOut, limit)
    ensures var (s', reply) := Apply(s, c);
            if !MayLook(s, c) then s' == s && reply.Refused?
            else
              var least := if c.partnerLimit.Some? && c.partnerLimit.value < limit then c.partnerLimit.value else limit;
              var taken := Sum(TakenDuring(s, c.room, c.checkIn, c.checkOut, -1), |s.locks|);
              && WrittenOff(s, c.room, s'.locks)
              && if !c.restricted && c.priced && taken + c.rooms <= least
                 then reply == DraftReply(|s.drafts|)
                      && s' == s.(locks := s'.locks, drafts := s.drafts + [Draft(c.room, c.checkIn, c.checkOut, c.rooms, least, taken)])
                 else s' == s.(locks := s'.locks) && reply.Refused?
  {
    if MayLook(s, c) {
      StaysAreCounted(s, s.(locks := Swept(s.locks, c.room, s.now)), c.room, c.checkIn, c.checkOut, -1);
      LimitIsLeast(s, c.room, c.checkIn, c.checkOut);
      OneLimit(s, c.room, c.checkIn, c.checkOut, limit, Limited(s.capacity[c.room], StayLimit(s.overrides, c.room, c.checkIn, c.checkOut)));
    }
    hide Reserved, StayLimit, TakenDuring, IsLimit;
  }

  lemma OneLimit(s: Desk, room: nat, checkIn: int, checkOut: int, a: int, b: int)
    requires room < |s.capacity| && IsLimit(s, room, checkIn, checkOut, a) && IsLimit(s, room, checkIn, checkOut, b)
    ensures a == b
  {
  }

  // The lock of a quote: its own rooms and nights, held for ten minutes.
  lemma HoldsExactly(s: Desk, c: Call)
    requires c.HoldCall?
    ensures if c.draft < |s.drafts| then
              var d := s.drafts[c.draft];
              Apply(s, c) == (s.(locks := s.locks + [Lock(d.room, d.checkIn, d.checkOut, d.rooms, Active, s.now + 600_000)]), LockReply(|s.locks|))
            else Apply(s, c) == (s, Refused(NotLooked))
  {
  }

  // A lock can be confirmed exactly while it is held and in time.
  lemma ConvertsExactly(s: Desk, c: Call)
    requires c.ConvertCall?
    ensures if c.lock < |s.locks| && s.locks[c.lock].status == Active && s.now < s.locks[c.lock].expiresAt then
              Apply(s, c) == (s.(locks := s.locks[c.lock := s.locks[c.lock].(status := Converted)],
                                 flights := s.flights + [Flight(c.lock, c.key, Holding)]), FlightReply(|s.flights|))
            else Apply(s, c) == (s, Refused(LockNotActive))
  {
  }

  // A booking is stored exactly when neither its lock nor its key was used for one, and nothing else fails.
  lemma SavesExactly(s: Desk, c: Call)
    requires c.SaveCall?
    ensures if c.flight >= |s.flights| || s.flights[c.flight].phase != Holding then Apply(s, c) == (s, Refused(NotInFlight))
            else
              var f := s.flights[c.flight];
              if c.accepted && forall b :: 0 <= b < |s.bookings| ==> s.bookings[b].lock != f.lock && s.bookings[b].key != f.key then
                Apply(s, c) == (s.(flights := s.flights[c.flight := f.(phase := Ended)], bookings := s.bookings + [Booking(f.lock, f.key, true)]),
                                BookingReply(|s.bookings|))
              else Apply(s, c) == (s.(flights := s.flights[c.flight := f.(phase := Failed)]), Refused(SaveRejected))
  {
  }

  // A release is for a confirmation whose booking could not be saved, once.
  lemma ReleasesExactly(s: Desk, c: Call)
    requires Inv(s) && c.ReleaseCall?
    ensures var (s', reply) := Apply(s, c);
            if c.flight < |s.flights| && s.flights[c.flight].phase == Failed then
              && reply == Done && s'.flights == s.flights[c.flight := s.flights[c.flight].(phase := Ended)]
              && s' == s.(flights := s'.flights, locks := s'.locks)
            else s' == s && reply == Refused(NotInFlight)
  {
  }

  lemma CancelsExactly(s: Desk, c: Call)
    requires Inv(s) && c.CancelCall?
    ensures if c.booking < |s.bookings| then
              var b := s.bookings[c.booking];
              Apply(s, c) == (s.(bookings := s.bookings[c.booking := b.(confirmed := false)],
                                 locks := s.locks[b.lock := s.locks[b.lock].(status := LockStatus.Released)]), Done)
            else Apply(s, c) == (s, Refused(BookingNotFound))
  {
  }

  lemma ExpiresExactly(s: Desk, c: Call)
    requires c.ExpireCall?
    ensures Apply(s, c).0 == if c.lock < |s.locks| && s.locks[c.lock].status == Active && s.locks[c.lock].expiresAt <= s.now
                             then s.(locks := s.locks[c.lock := s.locks[c.lock].(status := Expired)]) else s
  {
  }

  // ---- changes ----

  ghost predicate MayRequest(s: Desk, c: Call)
    requires c.RequestCall?
  {
    && c.booking < |s.bookings| && s.bookings[c.booking].confirmed && s.bookings[c.booking].lock < |s.locks|
    && c.checkIn < c.checkOut && c.today <= c.checkIn
    && !(c.checkIn == s.locks[s.bookings[c.booking].lock].checkIn && c.checkOut == s.locks[s.bookings[c.booking].lock].checkOut)
    && forall a :: 0 <= a < |s.amendments| && s.amendments[a].booking == c.booking ==> s.amendments[a].review != Pending
  }

  lemma RequestsExactly(s: Desk, c: Call)
    requires c.RequestCall?
    ensures if MayRequest(s, c)
            then Apply(s, c) == (s.(amendments := s.amendments + [Amendment(c.booking, c.checkIn, c.checkOut, Pending)]), AmendmentReply(|s.amendments|))
            else Apply(s, c).0 == s && Apply(s, c).1.Refused?
  {
  }

  lemma DeclinesExactly(s: Desk, c: Call)
    requires c.DeclineCall?
    ensures if c.amendment < |s.amendments| && s.amendments[c.amendment].review == Pending
            then Apply(s, c) == (s.(amendments := s.amendments[c.amendment := s.amendments[c.amendment].(review := Declined)]), AmendmentReply(c.amendment))
            else Apply(s, c) == (s, Refused(AmendmentNotPending))
  {
  }

  ghost predicate MayReview(s: Desk, c: Call)
    requires c.ReviewCall?
  {
    && c.amendment < |s.amendments| && s.amendments[c.amendment].review == Pending
    && var a := s.amendments[c.amendment];
       && a.booking < |s.bookings| && s.bookings[a.booking].confirmed && a.checkIn < a.checkOut && c.today <= a.checkIn
       && s.bookings[a.booking].lock < |s.locks| && s.locks[s.bookings[a.booking].lock].room < |s.capacity|
  }

  // An approval finds its rooms when they fit beside what other locks take during the new stay.
  lemma ReviewsExactly(s: Desk, c: Call, limit: int)
    requires c.ReviewCall?
    requires MayReview(s, c) ==>
               var a := s.amendments[c.amendment];
               IsLimit(s, s.locks[s.bookings[a.booking].lock].room, a.checkIn, a.checkOut, limit)
    ensures var (s', reply) := Apply(s, c);
            if !MayReview(s, c) then s' == s && reply.Refused?
            else
              var a := s.amendments[c.amendment];
              var id := s.bookings[a.booking].lock;
              var l := s.locks[id];
              var taken := Sum(TakenDuring(s, l.room, a.checkIn, a.checkOut, id), |s.locks|);
              && WrittenOff(s, l.room, s'.locks)
              && if c.priced && taken + l.quantity <= limit
                 then reply == ApprovalReply(|s.approvals|)
                      && s' == s.(locks := s'.locks, approvals := s.approvals + [Approval(c.amendment, limit, taken, false)])
                 else s' == s.(locks := s'.locks) && reply.Refused?
  {
    if MayReview(s, c) {
      var a := s.amendments[c.amendment];
      var id := s.bookings[a.booking].lock;
      var room := s.locks[id].room;
      StaysAreCounted(s, s.(locks := Swept(s.locks, room, s.now)), room, a.checkIn, a.checkOut, id);
      LimitIsLeast(s, room, a.checkIn, a.checkOut);
      OneLimit(s, room, a.checkIn, a.checkOut, limit, Limited(s.capacity[room], StayLimit(s.overrides, room, a.checkIn, a.checkOut)));
    }
    hide Reserved, StayLimit, TakenDuring, IsLimit;
  }

  lemma ChecksExactly(s: Desk, c: Call)
    requires Inv(s) && c.CheckCall?
    ensures var (s', reply) := Apply(s, c);
            if c.approval < |s.approvals| && s.amendments[s.approvals[c.approval].amendment].review == Pending
               && s.bookings[s.amendments[s.approvals[c.approval].amendment].booking].confirmed
            then reply == Done && s' == s.(approvals := s.approvals[c.approval := s.approvals[c.approval].(checked := true)])
            else s' == s && reply.Refused?
  {
    if c.approval < |s.approvals| {
      assert ApprovalOk(s, s.approvals[c.approval]);
    }
  }

  lemma MovesExactly(s: Desk, c: Call)
    requires Inv(s) && c.MoveCall?
    ensures var (s', reply) := Apply(s, c);
            if c.approval < |s.approvals| && s.approvals[c.approval].checked then
              var id := s.approvals[c.approval].amendment;
              var a := s.amendments[id];
              var lock := s.bookings[a.booking].lock;
              && reply == AmendmentReply(id)
              && s' == s.(locks := s.locks[lock := s.locks[lock].(checkIn := a.checkIn, checkOut := a.checkOut)],
                          amendments := s.amendments[id := a.(review := Approved)])
            else s' == s && reply.Refused?
  {
    if c.approval < |s.approvals| {
      assert ApprovalOk(s, s.approvals[c.approval]);
    }
  }

  lemma LimitsAreSetExactly(s: Desk, c: Call, room: nat, night: int)
    requires c.OverrideCall?
    ensures var (s', reply) := Apply(s, c);
            if c.checkIn < c.checkOut && c.today <= c.checkIn && c.room < |s.capacity| && 0 <= c.available <= s.capacity[c.room] then
              && reply == Done && s' == s.(overrides := s'.overrides)
              && (if room == c.room && c.checkIn <= night < c.checkOut
                  then (room, night) in s'.overrides && s'.overrides[(room, night)] == c.available
                  else ((room, night) in s'.overrides <==> (room, night) in s.overrides)
                       && ((room, night) in s.overrides ==> s'.overrides[(room, night)] == s.overrides[(room, night)]))
            else s' == s && reply.Refused?
  {
    if c.checkIn < c.checkOut && c.today <= c.checkIn && c.room < |s.capacity| && 0 <= c.available <= s.capacity[c.room] {
      OverrideRangeSetsItsNights(s.overrides, c.room, c.checkIn, c.checkOut, c.available, room, night);
    }
    hide OverrideRange;
  }

  // ---- refusals ----

  // A refusal names what is so: of a quote, and of the reading of an approval.
  ghost predicate WhyNoQuote(s: Desk, c: Call, e: Error, limit: int)
    requires c.LookCall?
  {
    match e
    case InvalidStayDates => c.checkOut <= c.checkIn
    case PastCheckIn => c.checkIn < c.today
    case InvalidOccupancy => c.rooms < 1
    case RoomUnavailable => c.room >= |s.capacity|
    case CalendarRestriction => c.restricted
    case InventoryNotAvailable =>
      var least := if c.partnerLimit.Some? && c.partnerLimit.value < limit then c.partnerLimit.value else limit;
      least < Sum(TakenDuring(s, c.room, c.checkIn, c.checkOut, -1), |s.locks|) + c.rooms
    case PriceUnavailable => !c.priced
    case _ => false
  }

  lemma QuotesRefusedTruly(s: Desk, c: Call, limit: int)
    requires c.LookCall? && Apply(s, c).1.Refused?
    requires MayLook(s, c) ==> IsLimit(s, c.room, c.checkIn, c.checkOut, limit)
    ensures WhyNoQuote(s, c, Apply(s, c).1.error, limit)
  {
    if MayLook(s, c) {
      StaysAreCounted(s, s.(locks := Swept(s.locks, c.room, s.now)), c.room, c.checkIn, c.checkOut, -1);
      LimitIsLeast(s, c.room, c.checkIn, c.checkOut);
      OneLimit(s, c.room, c.checkIn, c.checkOut, limit, Limited(s.capacity[c.room], StayLimit(s.overrides, c.room, c.checkIn, c.checkOut)));
    }
    hide Reserved, StayLimit, TakenDuring, IsLimit;
  }

  ghost predicate WhyNoApproval(s: Desk, c: Call, e: Error, limit: int)
    requires c.ReviewCall?
  {
    if e == AmendmentNotPending then c.amendment >= |s.amendments| || s.amendments[c.amendment].review != Pending
    else
      && c.amendment < |s.amendments|
      && var a := s.amendments[c.amendment];
         if e == BookingNotAmendable then a.booking >= |s.bookings| || !s.bookings[a.booking].confirmed
         else if e == InvalidStayDates then a.checkOut <= a.checkIn || a.checkIn < c.today
         else if e == InventoryNotAvailable then
           && MayReview(s, c)
           && var id := s.bookings[a.booking].lock;
              limit < Sum(TakenDuring(s, s.locks[id].room, a.checkIn, a.checkOut, id), |s.locks|) + s.locks[id].quantity
         else e == PriceUnavailable && (!c.priced || !MayReview(s, c))
  }

  lemma ApprovalsRefusedTruly(s: Desk, c: Call, limit: int)
    requires c.ReviewCall? && Apply(s, c).1.Refused?
    requires MayReview(s, c) ==>
               var a := s.amendments[c.amendment];
               IsLimit(s, s.locks[s.bookings[a.booking].lock].room, a.checkIn, a.checkOut, limit)
    ensures WhyNoApproval(s, c, Apply(s, c).1.error, limit)
  {
    if MayReview(s, c) {
      var a := s.amendments[c.amendment];
      var id := s.bookings[a.booking].lock;
      var room := s.locks[id].room;
      StaysAreCounted(s, s.(locks := Swept(s.locks, room, s.now)), room, a.checkIn, a.checkOut, id);
      LimitIsLeast(s, room, a.checkIn, a.checkOut);
      OneLimit(s, room, a.checkIn, a.checkOut, limit, Limited(s.capacity[room], StayLimit(s.overrides, room, a.checkIn, a.checkOut)));
    }
    hide Reserved, StayLimit, TakenDuring, IsLimit;
  }

  ghost predicate WhyNoChange(s: Desk, c: Call, e: Error)
    requires c.RequestCall? || c.OverrideCall?
  {
    match e
    case InvalidStayDates => c.checkOut <= c.checkIn || c.checkIn < c.today
    case RoomUnavailable => c.OverrideCall? && c.room >= |s.capacity|
    case InvalidLimit => c.OverrideCall? && (c.available < 0 || (c.room < |s.capacity| && c.available > s.capacity[c.room]))
    case BookingNotAmendable =>
      c.RequestCall? && !(c.booking < |s.bookings| && s.bookings[c.booking].confirmed && s.bookings[c.booking].lock < |s.locks|)
    case AmendmentUnchanged =>
      c.RequestCall? && c.booking < |s.bookings| && s.bookings[c.booking].lock < |s.locks|
      && s.locks[s.bookings[c.booking].lock].checkIn == c.checkIn && s.locks[s.bookings[c.booking].lock].checkOut == c.checkOut
    case AmendmentAlreadyPending =>
      c.RequestCall? && exists a :: 0 <= a < |s.amendments| && s.amendments[a].booking == c.booking && s.amendments[a].review == Pending
    case _ => false
  }

  lemma ChangesRefusedTruly(s: Desk, c: Call)
    requires (c.RequestCall? || c.OverrideCall?) && Apply(s, c).1.Refused?
    ensures WhyNoChange(s, c, Apply(s, c).1.error)
  {
    hide OverrideRange;
  }
}

// The lock, booking, amendment and override repositories and the services that drive them, on tables changed in place.

module RoomInventoryStore {
  import opened Common
  import opened Sums
  import opened RoomInventory
  import opened RoomInventoryTheorems

  // How many of the calls changed anything.
  function Changes(s: Desk, calls: seq<Call>): nat {
    if calls == [] then 0
    else
      var before := Run(s, calls[..|calls| - 1]);
      Changes(s, calls[..|calls| - 1]) + if Apply(before, calls[|calls| - 1]).0 != before then 1 else 0
  }

  function ExpireCalls(selected: seq<nat>): (r: seq<Call>)
    ensures |r| == |selected| && forall i :: 0 <= i < |r| ==> r[i] == ExpireCall(selected[i])
  {
    if selected == [] then [] else ExpireCalls(selected[..|selected| - 1]) + [ExpireCall(selected[|selected| - 1])]
  }

  class Store {
    var capacity: seq<nat>
    var overrides: map<(nat, int), nat>
    var now: int
    var locks: seq<Lock>
    var flights: seq<Flight>
    var bookings: seq<Booking>
    var amendments: seq<Amendment>
    // Quotes and approvals between their reading and their writing.
    var drafts: seq<Draft>
    var approvals: seq<Approval>

    ghost function Contents(): Desk
      reads this
    {
      Desk(capacity, overrides, now, locks, flights, bookings, amendments, drafts, approvals)
    }

    constructor (capacity: seq<nat>, now: int)
      ensures Contents() == Opening(capacity, now)
    {
      this.capacity, this.now, overrides := capacity, now, map[];
      locks, flights, bookings, amendments, drafts, approvals := [], [], [], [], [], [];
    }

    method Tick(time: int)
      modifies this
      ensures Contents() == Apply(old(Contents()), TickCall(time)).0
    {
      if time > now {
        now := time;
      }
    }

    // Expires the overdue holds of a room type, then adds up the locks that overlap the stay.
    method FindReserved(room: nat, checkIn: int, checkOut: int, excluded: int) returns (total: int)
      modifies this`locks
      ensures locks == Swept(old(locks), room, now)
      ensures total == Reserved(Contents(), room, checkIn, checkOut, excluded)
    {
      ghost var before := locks;
      for i := 0 to |locks|
        invariant |locks| == |before|
        invariant forall j :: 0 <= j < |locks| ==> locks[j] == if j < i then SweptLock(before[j], room, now) else before[j]
      {
        if locks[i].room == room && locks[i].status == Active && locks[i].expiresAt <= now {
          locks := locks[i := locks[i].(status := Expired)];
        }
      }
      assert locks == Swept(before, room, now);
      total := 0;
      for i := 0 to |locks|
        invariant total == Sum(StayTerm(locks, now, room, checkIn, checkOut, excluded), i)
      {
        var l := locks[i];
        if i != excluded && l.room == room && l.checkIn < checkOut && l.checkOut > checkIn
           && (l.status == Converted || (l.status == Active && l.expiresAt > now)) {
          total := total + l.quantity;
        }
      }
    }

    method FindLimitForStay(room: nat, checkIn: int, checkOut: int) returns (limit: Option<nat>)
      requires checkIn <= checkOut
      ensures limit == StayLimit(overrides, room, checkIn, checkOut)
    {
      limit := None;
      for night := checkIn to checkOut
        invariant limit == StayLimit(overrides, room, checkIn, night)
      {
        if (room, night) in overrides && (limit.None? || overrides[(room, night)] <= limit.value) {
          limit := Some(overrides[(room, night)]);
        }
      }
    }

    method Look(room: nat, checkIn: int, checkOut: int, today: int, rooms: int, partnerLimit: Option<nat>,
                restricted: bool, priced: bool)
      returns (reply: Reply)
      modifies this
      ensures (Contents(), reply) == RoomInventory.Look(old(Contents()),
                LookCall(room, checkIn, checkOut, today, rooms, partnerLimit, restricted, priced))
    {
      if checkOut - checkIn < 1 {
        return Refused(InvalidStayDates);
      }
      if checkIn < today {
        return Refused(PastCheckIn);
      }
      if rooms < 1 {
        return Refused(InvalidOccupancy);
      }
      if room >= |capacity| {
        return Refused(RoomUnavailable);
      }
      var reserved := FindReserved(room, checkIn, checkOut, -1);
      var overrideLimit := FindLimitForStay(room, checkIn, checkOut);
      var effective: int := capacity[room];
      if overrideLimit.Some? && overrideLimit.value < effective {
        effective := overrideLimit.value;
      }
      if partnerLimit.Some? && partnerLimit.value < effective {
        effective := partnerLimit.value;
      }
      if restricted {
        return Refused(CalendarRestriction);
      }
      if effective - reserved < rooms {
        return Refused(InventoryNotAvailable);
      }
      if !priced {
        return Refused(PriceUnavailable);
      }
      reply := DraftReply(|drafts|);
      drafts := drafts + [Draft(room, checkIn, checkOut, rooms, effective, reserved)];
    }

    // The lock of a quote whose reading found its rooms.
    method Hold(draft: nat) returns (reply: Reply)
      modifies this
      ensures (Contents(), reply) == RoomInventory.Hold(old(Contents()), HoldCall(draft))
      ensures Inv(old(Contents())) ==> Inv(Contents())
    {
      hide Inv;
      if Inv(Contents()) {
        ApplyKeepsInv(Contents(), HoldCall(draft));
      }
      if draft >= |drafts| {
        return Refused(NotLooked);
      }
      var d := drafts[draft];
      reply := LockReply(|locks|);
      locks := locks + [Lock(d.room, d.checkIn, d.checkOut, d.rooms, Active, now + HOLD_MILLISECONDS)];
    }

    method Convert(lock: nat, key: string) returns (reply: Reply)
      modifies this
      ensures (Contents(), reply) == RoomInventory.Convert(old(Contents()), ConvertCall(lock, key))
      ensures Inv(old(Contents())) ==> Inv(Contents())
    {
      hide Inv;
      if Inv(Contents()) {
        ApplyKeepsInv(Contents(), ConvertCall(lock, key));
      }
      if lock >= |locks| || locks[lock].status != Active || locks[lock].expiresAt <= now {
        return Refused(LockNotActive);
      }
      locks := locks[lock := locks[lock].(status := Converted)];
      reply := FlightReply(|flights|);
      flights := flights + [Flight(lock, key, Holding)];
    }

    // Stores the booking of a confirmation; it may fail for its own reasons or on a unique column.
    method Save(flight: nat, accepted: bool) returns (reply: Reply)
      modifies this
      ensures (Contents(), reply) == RoomInventory.Save(old(Contents()), SaveCall(flight, accepted))
    {
      if flight >= |flights| || flights[flight].phase != Holding {
        return Refused(NotInFlight);
      }
      var f := flights[flight];
      var clash := false;
      for b := 0 to |bookings|
        invariant clash <==> exists j :: 0 <= j < b && (bookings[j].lock == f.lock || bookings[j].key == f.key)
      {
        clash := clash || bookings[b].lock == f.lock || bookings[b].key == f.key;
      }
      if !accepted || clash {
        flights := flights[flight := f.(phase := Failed)];
        return Refused(SaveRejected);
      }
      flights := flights[flight := f.(phase := Ended)];
      reply := BookingReply(|bookings|);
      bookings := bookings + [Booking(f.lock, f.key, true)];
    }

    method Release(flight: nat) returns (reply: Reply)
      modifies this
      ensures (Contents(), reply) == RoomInventory.Release(old(Contents()), ReleaseCall(flight))
      ensures Inv(old(Contents())) ==> Inv(Contents())
    {
      hide Inv;
      if Inv(Contents()) {
        ApplyKeepsInv(Contents(), ReleaseCall(flight));
      }
      if flight >= |flights| || flights[flight].phase != Failed || flights[flight].lock >= |locks| {
        return Refused(NotInFlight);
      }
      var lock := flights[flight].lock;
      if locks[lock].status == Converted && locks[lock].expiresAt > now {
        locks := locks[lock := locks[lock].(status := Active)];
      }
      if locks[lock].status == Converted && locks[lock].expiresAt <= now {
        locks := locks[lock := locks[lock].(status := Expired)];
      }
      assert locks == old(locks)[lock := ReleasedLock(old(locks)[lock], now)];
      flights := flights[flight := flights[flight].(phase := Ended)];
      return Done;
    }

    method Cancel(booking: nat) returns (reply: Reply)
      modifies this
      ensures (Contents(), reply) == RoomInventory.Cancel(old(Contents()), CancelCall(booking))
      ensures Inv(old(Contents())) ==> Inv(Contents())
    {
      hide Inv;
      if Inv(Contents()) {
        ApplyKeepsInv(Contents(), CancelCall(booking));
      }
      if booking >= |bookings| || bookings[booking].lock >= |locks| {
        return Refused(BookingNotFound);
      }
      var lock := bookings[booking].lock;
      bookings := bookings[booking := bookings[booking].(confirmed := false)];
      locks := locks[lock := locks[lock].(status := RoomInventory.Released)];
      return Done;
    }

    // The maintenance batch: of the selected locks, those still active and overdue expire, and they are counted.
    method ExpireBatch(selected: seq<nat>) returns (count: nat)
      modifies this
      ensures Contents() == Run(old(Contents()), ExpireCalls(selected))
      ensures count == Changes(old(Contents()), ExpireCalls(selected))
    {
      hide RoomInventory.Look, RoomInventory.ReviewChange, RoomInventory.Move, RoomInventory.Save, RoomInventory.RequestChange;
      ghost var calls, before := ExpireCalls(selected), Contents();
      count := 0;
      for i := 0 to |selected|
        invariant Contents() == Run(before, calls[..i]) && count == Changes(before, calls[..i])
      {
        assert calls[..i + 1][..i] == calls[..i];
        ghost var was := Contents();
        var lock := selected[i];
        if lock < |locks| && locks[lock].status == Active && locks[lock].expiresAt <= now {
          locks := locks[lock := locks[lock].(status := Expired)];
          count := count + 1;
          assert locks[lock] != was.locks[lock];
        }
        assert Contents() == Apply(was, calls[i]).0;
      }
      assert calls[..|selected|] == calls;
    }

    method RequestChange(booking: nat, checkIn: int, checkOut: int, today: int) returns (reply: Reply)
      modifies this
      ensures (Contents(), reply) == RoomInventory.RequestChange(old(Contents()), RequestCall(booking, checkIn, checkOut, today))
    {
      if booking >= |bookings| || !bookings[booking].confirmed || bookings[booking].lock >= |locks| {
        return Refused(BookingNotAmendable);
      }
      if checkOut - checkIn < 1 || checkIn < today {
        return Refused(InvalidStayDates);
      }
      var l := locks[bookings[booking].lock];
      if l.checkIn == checkIn && l.checkOut == checkOut {
        return Refused(AmendmentUnchanged);
      }
      var pending := false;
      for a := 0 to |amendments|
        invariant pending <==> exists j :: 0 <= j < a && amendments[j].booking == booking && amendments[j].review == Pending
      {
        pending := pending || (amendments[a].booking == booking && amendments[a].review == Pending);
      }
      if pending {
        return Refused(AmendmentAlreadyPending);
      }
      reply := AmendmentReply(|amendments|);
      amendments := amendments + [Amendment(booking, checkIn, checkOut, Pending)];
    }

    method Decline(amendment: nat) returns (reply: Reply)
      modifies this
      ensures (Contents(), reply) == RoomInventory.Decline(old(Contents()), DeclineCall(amendment))
      ensures Inv(old(Contents())) ==> Inv(Contents())
    {
      hide Inv;
      if Inv(Contents()) {
        ApplyKeepsInv(Contents(), DeclineCall(amendment));
      }
      if amendment >= |amendments| || amendments[amendment].review != Pending {
        return Refused(AmendmentNotPending);
      }
      amendments := amendments[amendment := amendments[amendment].(review := Declined)];
      return AmendmentReply(amendment);
    }

    method ReviewChange(amendment: nat, today: int, priced: bool) returns (reply: Reply)
      modifies this
      ensures (Contents(), reply) == RoomInventory.ReviewChange(old(Contents()), ReviewCall(amendment, today, priced))
    {
      if amendment >= |amendments| || amendments[amendment].review != Pending {
        return Refused(AmendmentNotPending);
      }
      var a := amendments[amendment];
      if a.booking >= |bookings| || !bookings[a.booking].confirmed {
        return Refused(BookingNotAmendable);
      }
      if a.checkOut - a.checkIn < 1 || a.checkIn < today {
        return Refused(InvalidStayDates);
      }
      var lock := bookings[a.booking].lock;
      if lock >= |locks| || locks[lock].room >= |capacity| {
        return Refused(PriceUnavailable);
      }
      var room, rooms := locks[lock].room, locks[lock].quantity;
      var others := FindReserved(room, a.checkIn, a.checkOut, lock);
      var overrideLimit := FindLimitForStay(room, a.checkIn, a.checkOut);
      var effective: int := capacity[room];
      if overrideLimit.Some? && overrideLimit.value < effective {
        effective := overrideLimit.value;
      }
      if effective - others < rooms {
        return Refused(InventoryNotAvailable);
      }
      if !priced {
        return Refused(PriceUnavailable);
      }
      reply := ApprovalReply(|approvals|);
      approvals := approvals + [Approval(amendment, effective, others, false)];
    }

    // The last look before the transaction: the change is still pending, its booking still confirmed.
    method Check(approval: nat) returns (reply: Reply)
      modifies this
      ensures (Contents(), reply) == RoomInventory.Check(old(Contents()), CheckCall(approval))
      ensures Inv(old(Contents())) ==> Inv(Contents())
    {
      hide Inv;
      if Inv(Contents()) {
        ApplyKeepsInv(Contents(), CheckCall(approval));
      }
      if approval >= |approvals| || approvals[approval].amendment >= |amendments| {
        return Refused(NotLooked);
      }
      var a := amendments[approvals[approval].amendment];
      if a.review != Pending || a.booking >= |bookings| || !bookings[a.booking].confirmed {
        return Refused(AmendmentNotPending);
      }
      approvals := approvals[approval := approvals[approval].(checked := true)];
      return Done;
    }

    // The transaction of an approval.
    method Move(approval: nat) returns (reply: Reply)
      modifies this
      ensures (Contents(), reply) == RoomInventory.Move(old(Contents()), MoveCall(approval))
      ensures Inv(old(Contents())) ==> Inv(Contents())
    {
      hide Inv;
      if Inv(Contents()) {
        ApplyKeepsInv(Contents(), MoveCall(approval));
      }
      if approval >= |approvals| || !approvals[approval].checked || approvals[approval].amendment >= |amendments| {
        return Refused(NotLooked);
      }
      var id := approvals[approval].amendment;
      var a := amendments[id];
      if a.booking >= |bookings| || bookings[a.booking].lock >= |locks| {
        return Refused(NotLooked);
      }
      var lock := bookings[a.booking].lock;
      locks := locks[lock := locks[lock].(checkIn := a.checkIn, checkOut := a.checkOut)];
      amendments := amendments[id := a.(review := Approved)];
      return AmendmentReply(id);
    }

    // The nights of a stay, first to last; the night of departure is not one of them.
    method EnumerateNights(checkIn: int, checkOut: int) returns (nights: seq<int>)
      ensures |nights| == if checkIn < checkOut then checkOut - checkIn else 0
      ensures forall i :: 0 <= i < |nights| ==> nights[i] == checkIn + i
    {
      nights := [];
      var current := checkIn;
      while current < checkOut
        invariant |nights| == current - checkIn
        invariant current <= checkOut || nights == []
        invariant forall i :: 0 <= i < |nights| ==> nights[i] == checkIn + i
      {
        nights := nights + [current];
        current := current + 1;
      }
    }

    method SetOverride(room: nat, checkIn: int, checkOut: int, today: int, available: int) returns (reply: Reply)
      modifies this
      ensures (Contents(), reply) == RoomInventory.SetOverride(old(Contents()), OverrideCall(room, checkIn, checkOut, today, available))
    {
      if checkOut - checkIn < 1 || checkIn < today {
        return Refused(InvalidStayDates);
      }
      if room >= |capacity| {
        return Refused(RoomUnavailable);
      }
      if available < 0 || available > capacity[room] {
        return Refused(InvalidLimit);
      }
      var nights := EnumerateNights(checkIn, checkOut);
      ghost var before := Contents();
      for i := 0 to |nights|
        invariant Contents() == before.(overrides := OverrideRange(before.overrides, room, checkIn, checkIn + i, available))
      {
        overrides := overrides[(room, nights[i]) := available];
      }
      return Done;
    }
  }
}

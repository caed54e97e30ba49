// The seat hold service, the booking step and the hold part of the maintenance job, on tables changed in place.

module SeatHoldsStore {
  import opened Common
  import opened SeatHolds
  import opened SeatHoldsTheorems

  class Store {
    var now: int
    var trips: seq<Trip>
    var holds: map<nat, Hold>
    var nextHold: nat
    var reservations: seq<Reservation>
    // Operators' edits between their look and their write.
    var edits: seq<Edit>

    ghost function Contents(): State
      reads this
    {
      State(now, trips, holds, nextHold, reservations, edits)
    }

    constructor (now: int)
      ensures Contents() == Opening(now)
    {
      this.now := now;
      trips, holds, nextHold, reservations, edits := [], map[], 0, [], [];
    }

    method Tick(time: int)
      modifies this
      ensures Contents() == Apply(old(Contents()), TickCall(time)).0
    {
      if time > now {
        now := time;
      }
    }

    // One delete over all holds of a trip that match.
    method DeleteHolds(trip: nat, user: Option<nat>)
      modifies this`holds
      ensures holds == if user.None? then WithoutExpired(old(holds), trip, now) else WithoutUser(old(holds), trip, user.value)
    {
      ghost var before := holds;
      var pending := holds.Keys;
      while pending != {}
        invariant pending <= before.Keys
        invariant forall h :: h in holds <==>
                    h in before && (h in pending || !(before[h].trip == trip
                                                      && (if user.None? then before[h].expiresAt <= now else before[h].user == user.value)))
        invariant forall h :: h in holds ==> holds[h] == before[h]
        decreases |pending|
      {
        var h :| h in pending;
        pending := pending - {h};
        if holds[h].trip == trip && (if user.None? then holds[h].expiresAt <= now else holds[h].user == user.value) {
          holds := holds - {h};
        }
      }
    }

    // The seats of confirmed reservations of a trip.
    method ReservedSeats(trip: nat) returns (seats: set<Seat>)
      ensures seats == OccupiedSeats(reservations, trip)
      ensures forall seat :: seat in seats <==> ReservedSeat(reservations, trip, seat)
    {
      seats := {};
      for r := 0 to |reservations|
        invariant forall seat :: seat in seats <==> ReservedSeat(reservations[..r], trip, seat)
      {
        assert reservations[..r + 1] == reservations[..r] + [reservations[r]];
        if reservations[r].trip == trip {
          ghost var before := seats;
          for k := 0 to |reservations[r].seats|
            invariant forall seat :: seat in seats <==> seat in before || seat in reservations[r].seats[..k]
          {
            assert reservations[r].seats[..k + 1] == reservations[r].seats[..k] + [reservations[r].seats[k]];
            seats := seats + {reservations[r].seats[k]};
          }
          assert reservations[r].seats[..|reservations[r].seats|] == reservations[r].seats;
        }
      }
      assert reservations[..|reservations|] == reservations;
    }

    method Create(trip: nat, serviceDate: int, user: nat, seats: seq<Seat>) returns (reply: Reply)
      modifies this
      ensures (Contents(), reply) == SeatHolds.Create(old(Contents()), CreateCall(trip, serviceDate, user, seats))
    {
      if !Distinct(seats) || exists i :: 0 <= i < |seats| && !Labelled(seats[i]) {
        return Refused(InvalidHoldRequest);
      }
      if trip >= |trips| || !trips[trip].active || trips[trip].serviceDate != serviceDate {
        return Refused(TripUnavailable);
      }
      if |seats| < 1 || |seats| > 6 || !Fit(seats, trips[trip].capacity) {
        return Refused(InvalidSeats);
      }
      var before := holds;
      DeleteHolds(trip, None);
      var reserved := ReservedSeats(trip);
      if exists i :: 0 <= i < |seats| && seats[i] in reserved {
        // The transaction rolls back.
        holds := before;
        return Refused(SeatUnavailable);
      }
      DeleteHolds(trip, Some(user));
      if exists i :: 0 <= i < |seats| && HeldSeat(holds, trip, seats[i]) {
        holds := before;
        return Refused(SeatHeld);
      }
      holds := holds[nextHold := Hold(trip, user, seats, now + HOLD_MILLISECONDS)];
      reply := HoldReply(nextHold);
      nextHold := nextHold + 1;
    }

    method Release(hold: nat, user: nat) returns (reply: Reply)
      modifies this
      ensures (Contents(), reply) == SeatHolds.Release(old(Contents()), ReleaseCall(hold, user))
      ensures Inv(old(Contents())) ==> Inv(Contents())
    {
      hide Inv;
      if Inv(Contents()) {
        ApplyKeepsInv(Contents(), ReleaseCall(hold, user));
      }
      reply := Deleted(0);
      if hold in holds && holds[hold].user == user {
        holds := holds - {hold};
        reply := Deleted(1);
      }
    }

    // The seat map: reserved seats and the seats of running holds, a traveller's own holds left out.
    method UnavailableSeats(trip: nat, at: int, user: Option<nat>) returns (seats: set<Seat>)
      ensures forall seat :: seat in seats <==> Unavailable(Contents(), trip, at, user, seat)
    {
      if trip >= |trips| {
        return {};
      }
      seats := ReservedSeats(trip);
      ghost var reserved := seats;
      var pending := holds.Keys;
      while pending != {}
        invariant pending <= holds.Keys
        invariant forall seat :: seat in seats <==>
                    seat in reserved || exists h :: h in holds && h !in pending && holds[h].trip == trip && holds[h].expiresAt > at
                                                    && (user.None? || holds[h].user != user.value) && seat in holds[h].seats
        decreases |pending|
      {
        var h :| h in pending;
        if holds[h].trip == trip && holds[h].expiresAt > at && (user.None? || holds[h].user != user.value) {
          seats := seats + set k | 0 <= k < |holds[h].seats| :: holds[h].seats[k];
        }
        pending := pending - {h};
      }
    }

    method ValidateOwnedHold(hold: nat, trip: nat, serviceDate: int, user: nat, seats: seq<Seat>) returns (reply: Reply)
      ensures reply == Done <==> OwnedHold(Contents(), hold, trip, user, seats) && trip < |trips| && trips[trip].serviceDate == serviceDate
      ensures reply == Done || reply == Refused(HoldInvalid)
    {
      if hold !in holds || holds[hold].trip != trip || holds[hold].user != user {
        return Refused(HoldInvalid);
      }
      if holds[hold].expiresAt <= now || trip >= |trips| || trips[trip].serviceDate != serviceDate || !SetsMatch(holds[hold].seats, seats) {
        return Refused(HoldInvalid);
      }
      return Done;
    }

    method Reserve(trip: nat, serviceDate: int, user: nat, hold: nat, seats: seq<Seat>, passengers: int) returns (reply: Reply)
      modifies this
      ensures (Contents(), reply) == SeatHolds.Reserve(old(Contents()), ReserveCall(trip, serviceDate, user, hold, seats, passengers))
    {
      if trip >= |trips| || !trips[trip].active || trips[trip].serviceDate != serviceDate {
        return Refused(TripUnavailable);
      }
      if hold !in holds || holds[hold].trip != trip || holds[hold].user != user || holds[hold].expiresAt <= now
         || !SetsMatch(holds[hold].seats, seats) {
        return Refused(HoldInvalid);
      }
      if |seats| != passengers || !Distinct(seats) || !Fit(seats, trips[trip].capacity) {
        return Refused(InvalidSeats);
      }
      var occupied := ReservedSeats(trip);
      if exists i :: 0 <= i < |seats| && seats[i] in occupied {
        return Refused(SeatUnavailable);
      }
      if |occupied| + passengers > trips[trip].capacity {
        return Refused(SoldOut);
      }
      reply := ReservationReply(|reservations|);
      reservations := reservations + [Reservation(trip, user, seats)];
      holds := holds - {hold};
    }

    method Schedule(capacity: int, serviceDate: int) returns (reply: Reply)
      modifies this
      ensures (Contents(), reply) == SeatHolds.Schedule(old(Contents()), ScheduleCall(capacity, serviceDate))
    {
      if capacity < 1 || capacity > 80 {
        return Refused(InvalidControls);
      }
      trips := trips + [Trip(capacity, true, serviceDate)];
      return Done;
    }

    // The highest place among a list of seats, none being 0.
    method OccupiedSeatFloor(seats: seq<Seat>) returns (floor: int)
      ensures floor == HighestPlace(seats)
    {
      floor := 0;
      for k := 0 to |seats|
        invariant floor == HighestPlace(seats[..k])
      {
        assert seats[..k + 1][..k] == seats[..k];
        floor := Higher(floor, Place(seats[k]));
      }
      assert seats[..|seats|] == seats;
    }

    // The operator's look: the trip's controls and what its reservations ask for.
    method Look(trip: nat) returns (reply: Reply)
      modifies this`edits
      ensures (Contents(), reply) == SeatHolds.Look(old(Contents()), LookCall(trip))
    {
      if trip >= |trips| {
        return Refused(TripUnavailable);
      }
      var floor, passengers := 0, 0;
      for r := 0 to |reservations|
        invariant edits == old(edits)
        invariant floor == SeatFloor(reservations[..r], trip) && passengers == Passengers(reservations[..r], trip)
      {
        assert reservations[..r + 1][..r] == reservations[..r];
        if reservations[r].trip == trip {
          var highest := OccupiedSeatFloor(reservations[r].seats);
          floor := Higher(floor, highest);
          passengers := passengers + |reservations[r].seats|;
        }
      }
      assert reservations[..|reservations|] == reservations;
      reply := EditReply(|edits|);
      edits := edits + [Edit(trip, trips[trip].capacity, trips[trip].active, floor, passengers)];
    }

    // The write that follows a look; it takes no other look, and no edit moves a seat from hand to hand.
    method Write(edit: nat, asked: Option<int>, status: Option<bool>) returns (reply: Reply)
      modifies this
      ensures (Contents(), reply) == SeatHolds.Write(old(Contents()), WriteCall(edit, asked, status))
      ensures Inv(old(Contents())) ==> Inv(Contents())
    {
      hide Inv;
      if Inv(Contents()) {
        ApplyKeepsInv(Contents(), WriteCall(edit, asked, status));
      }
      if edit >= |edits| {
        return Refused(NoEdit);
      }
      var e := edits[edit];
      var capacity := if asked.Some? then asked.value else e.capacity;
      var active := if status.Some? then status.value else e.active;
      if capacity < 1 || capacity > 80 {
        return Refused(InvalidControls);
      }
      if capacity < e.passengers || capacity < e.floor {
        return Refused(CapacityBelowReservations);
      }
      if e.trip >= |trips| {
        return Refused(TripUnavailable);
      }
      trips := trips[e.trip := trips[e.trip].(capacity := capacity, active := active)];
      return Done;
    }

    // The earliest holds that ran out, at most `limit` of them.
    method SelectExpired(limit: nat) returns (selected: set<nat>)
      ensures |selected| <= limit && forall h :: h in selected ==> h in holds && holds[h].expiresAt <= now
      ensures forall h :: h in holds && holds[h].expiresAt <= now && h !in selected ==>
                |selected| == limit && forall g :: g in selected ==> holds[g].expiresAt <= holds[h].expiresAt
    {
      selected := {};
      while |selected| < limit
        invariant |selected| <= limit && forall h :: h in selected ==> h in holds && holds[h].expiresAt <= now
        invariant forall g, h :: h in holds && h !in selected && g in selected ==> holds[g].expiresAt <= holds[h].expiresAt
        decreases limit - |selected|
      {
        var next: Option<nat> := None;
        var pending := holds.Keys - selected;
        while pending != {}
          invariant pending <= holds.Keys - selected
          invariant next.Some? ==> next.value in holds && next.value !in selected && holds[next.value].expiresAt <= now
          invariant forall h :: h in holds && h !in selected && h !in pending ==>
                      (next.Some? && holds[next.value].expiresAt <= holds[h].expiresAt) || holds[h].expiresAt > now
          decreases |pending|
        {
          var h :| h in pending;
          pending := pending - {h};
          if holds[h].expiresAt <= now && (next.None? || holds[h].expiresAt < holds[next.value].expiresAt) {
            next := Some(h);
          }
        }
        if next.None? {
          return;
        }
        selected := selected + {next.value};
      }
    }

    method Sweep(limit: nat) returns (reply: Reply, ghost selected: set<nat>)
      modifies this
      ensures (Contents(), reply) == SeatHolds.Sweep(old(Contents()), SweepCall(selected))
      ensures |selected| <= limit
      ensures (exists h :: h in holds && holds[h].expiresAt <= now) ==> reply == Deleted(limit)
    {
      var batch := SelectExpired(limit);
      selected := batch;
      assert RanOut(Contents(), batch) == batch;
      reply := Deleted(|batch|);
      holds := holds - batch;
    }
  }
}

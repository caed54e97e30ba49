// What each call of the seat holds asks for and what it leaves, spelled on the trips, holds and reservations.

module SeatHoldsOutcomes {
  import opened Common
  import opened Sums
  import opened SeatHolds
  import opened SeatHoldsTheorems

  // A seat's number on the bus: four to a row, from the first.
  ghost predicate OnBus(seat: Seat, capacity: int) { 4 * seat.row + seat.column <= capacity + 4 }

  ghost predicate Listed(seats: seq<Seat>) {
    && (forall i :: 0 <= i < |seats| ==> 1 <= seats[i].row <= 99 && 1 <= seats[i].column <= 4)
    && (forall i, j :: 0 <= i < j < |seats| ==> seats[i] != seats[j])
  }

  ghost predicate Bookable(s: State, trip: nat, serviceDate: int) {
    trip < |s.trips| && s.trips[trip].active && s.trips[trip].serviceDate == serviceDate
  }

  // The seat is in a confirmed reservation of the trip.
  ghost predicate Booked(s: State, trip: nat, seat: Seat) {
    exists r :: 0 <= r < |s.reservations| && s.reservations[r].trip == trip && seat in s.reservations[r].seats
  }

  // The seat is in somebody else's hold that still runs.
  ghost predicate HeldByAnother(s: State, trip: nat, user: nat, seat: Seat) {
    exists h :: h in s.holds && s.holds[h].trip == trip && s.holds[h].user != user && s.now < s.holds[h].expiresAt && seat in s.holds[h].seats
  }

  ghost predicate MayHold(s: State, c: Call)
    requires c.CreateCall?
  {
    && Listed(c.seats) && 1 <= |c.seats| <= 6 && Bookable(s, c.trip, c.serviceDate) && 1 <= s.trips[c.trip].capacity <= 80
    && forall i :: 0 <= i < |c.seats| ==>
         OnBus(c.seats[i], s.trips[c.trip].capacity) && !Booked(s, c.trip, c.seats[i]) && !HeldByAnother(s, c.trip, c.user, c.seats[i])
  }

  lemma OthersAreAnothers(s: State, trip: nat, user: nat, seat: Seat)
    ensures HeldSeat(Others(s, trip, user), trip, seat) <==> HeldByAnother(s, trip, user, seat)
  {
    var others := Others(s, trip, user);
    if HeldSeat(others, trip, seat) {
      var h :| h in others && others[h].trip == trip && seat in others[h].seats;
      assert h in s.holds && s.holds[h] == others[h];
    }
    if h :| h in s.holds && s.holds[h].trip == trip && s.holds[h].user != user && s.now < s.holds[h].expiresAt && seat in s.holds[h].seats {
      assert h in others && others[h] == s.holds[h];
    }
  }

  lemma HoldableExactly(s: State, c: Call)
    requires c.CreateCall?
    ensures Create(s, c).1.HoldReply? <==> MayHold(s, c)
    ensures !Create(s, c).1.HoldReply? ==> Create(s, c).0 == s && Create(s, c).1.Refused?
  {
    hide Others, HeldSeat, HeldByAnother;
    forall i | 0 <= i < |c.seats| ensures HeldSeat(Others(s, c.trip, c.user), c.trip, c.seats[i]) <==> HeldByAnother(s, c.trip, c.user, c.seats[i]) {
      OthersAreAnothers(s, c.trip, c.user, c.seats[i]);
    }
  }

  // A hold is made for ten minutes; on its trip it replaces the traveller's own hold and those that ran out.
  lemma HoldsExactly(s: State, c: Call)
    requires c.CreateCall?
    ensures var (s', reply) := Apply(s, c);
            if MayHold(s, c) then
              && reply == HoldReply(s.nextHold) && s' == s.(holds := s'.holds, nextHold := s.nextHold + 1)
              && s.nextHold in s'.holds && s'.holds[s.nextHold] == Hold(c.trip, c.user, c.seats, s.now + 600_000)
              && forall h :: h != s.nextHold ==>
                   && (h in s'.holds <==> h in s.holds && (s.holds[h].trip != c.trip || (s.holds[h].user != c.user && s.now < s.holds[h].expiresAt)))
                   && (h in s'.holds ==> s'.holds[h] == s.holds[h])
            else s' == s && reply.Refused?
  {
    HoldableExactly(s, c);
    hide MayHold;
  }

  lemma ReleasesExactly(s: State, c: Call)
    requires c.ReleaseCall?
    ensures var (s', reply) := Apply(s, c);
            if c.hold in s.holds && s.holds[c.hold].user == c.user then reply == Deleted(1) && s' == s.(holds := s.holds - {c.hold})
            else reply == Deleted(0) && s' == s
  {
  }

  ghost predicate SameSeats(a: seq<Seat>, b: seq<Seat>) { |a| == |b| && forall seat :: seat in a ==> seat in b }

  ghost predicate MayReserve(s: State, c: Call)
    requires c.ReserveCall?
  {
    && Bookable(s, c.trip, c.serviceDate) && 1 <= s.trips[c.trip].capacity <= 80
    && c.hold in s.holds && s.holds[c.hold].trip == c.trip && s.holds[c.hold].user == c.user && s.now < s.holds[c.hold].expiresAt
    && SameSeats(s.holds[c.hold].seats, c.seats) && |c.seats| == c.passengers
    && (forall i, j :: 0 <= i < j < |c.seats| ==> c.seats[i] != c.seats[j])
    && (forall i :: 0 <= i < |c.seats| ==> OnBus(c.seats[i], s.trips[c.trip].capacity) && !Booked(s, c.trip, c.seats[i]))
    && |OccupiedSeats(s.reservations, c.trip)| + |c.seats| <= s.trips[c.trip].capacity
  }

  // The booked seats are those of the reservations.
  lemma OccupiedAreBooked(s: State, trip: nat, seat: Seat)
    ensures seat in OccupiedSeats(s.reservations, trip) <==> Booked(s, trip, seat)
  {
    ReservedInOccupied(s.reservations, trip, seat);
  }

  lemma ReservesExactly(s: State, c: Call)
    requires c.ReserveCall?
    ensures var (s', reply) := Apply(s, c);
            if MayReserve(s, c) then
              && reply == ReservationReply(|s.reservations|)
              && s' == s.(reservations := s.reservations + [Reservation(c.trip, c.user, c.seats)], holds := s.holds - {c.hold})
            else s' == s && reply.Refused?
  {
    hide OccupiedSeats;
    assert c.hold in s.holds ==> (SetsMatch(s.holds[c.hold].seats, c.seats) <==> SameSeats(s.holds[c.hold].seats, c.seats));
  }

  lemma SweepsExactly(s: State, c: Call)
    requires c.SweepCall?
    ensures var (s', reply) := Apply(s, c);
            && reply.Deleted? && reply.count == |s.holds.Keys - s'.holds.Keys| && s' == s.(holds := s'.holds)
            && forall h ::
                 && (h in s'.holds <==> h in s.holds && !(h in c.selected && s.holds[h].expiresAt <= s.now))
                 && (h in s'.holds ==> s'.holds[h] == s.holds[h])
  {
    assert s.holds.Keys - Sweep(s, c).0.holds.Keys == RanOut(s, c.selected);
  }

  // ---- trips ----

  lemma SchedulesExactly(s: State, c: Call)
    requires c.ScheduleCall?
    ensures if 1 <= c.capacity <= 80 then Apply(s, c) == (s.(trips := s.trips + [Trip(c.capacity, true, c.serviceDate)]), Done)
            else Apply(s, c).0 == s && Apply(s, c).1.Refused?
  {
  }

  // An edit reads the controls, the highest booked place and how many passengers are booked.
  lemma LooksExactly(s: State, c: Call)
    requires c.LookCall?
    ensures var (s', reply) := Apply(s, c);
            if c.trip >= |s.trips| then s' == s && reply.Refused?
            else
              && reply == EditReply(|s.edits|) && |s'.edits| == |s.edits| + 1
              && var e := s'.edits[|s.edits|];
                 && s' == s.(edits := s.edits + [e])
                 && e.trip == c.trip && e.capacity == s.trips[c.trip].capacity && e.active == s.trips[c.trip].active
                 && e.floor >= 0 && (forall seat :: Booked(s, c.trip, seat) ==> OnBus(seat, e.floor))
                 && (e.floor > 0 ==> exists seat :: Booked(s, c.trip, seat) && !OnBus(seat, e.floor - 1))
                 && e.passengers == Sum(Booking(s, c.trip), |s.reservations|)
  {
    FloorIsHighestReserved(s.reservations, c.trip);
    PassengersAreCounted(s, c.trip, |s.reservations|);
    assert s.reservations[..|s.reservations|] == s.reservations;
    hide SeatFloor, Passengers;
    if c.trip < |s.trips| && SeatFloor(s.reservations, c.trip) > 0 {
      var seat :| ReservedSeat(s.reservations, c.trip, seat) && Place(seat) == SeatFloor(s.reservations, c.trip);
      assert Booked(s, c.trip, seat) && !OnBus(seat, SeatFloor(s.reservations, c.trip) - 1);
    }
    assert forall seat :: Booked(s, c.trip, seat) <==> ReservedSeat(s.reservations, c.trip, seat);
  }

  ghost function Booking(s: State, trip: nat): nat -> int {
    (i: nat) => if i < |s.reservations| && s.reservations[i].trip == trip then |s.reservations[i].seats| else 0
  }

  lemma {:induction false} PassengersAreCounted(s: State, trip: nat, n: nat)
    requires n <= |s.reservations|
    ensures Passengers(s.reservations[..n], trip) == Sum(Booking(s, trip), n)
  {
    if n > 0 {
      PassengersAreCounted(s, trip, n - 1);
      assert s.reservations[..n][..n - 1] == s.reservations[..n - 1];
    }
  }

  ghost predicate MayWrite(s: State, c: Call, capacity: int)
    requires c.WriteCall? && c.edit < |s.edits|
  {
    1 <= capacity <= 80 && s.edits[c.edit].passengers <= capacity && s.edits[c.edit].floor <= capacity
  }

  // A write goes by what was read: what is not asked for is written as it was read.
  lemma WritesExactly(s: State, c: Call)
    requires Inv(s) && c.WriteCall? && c.edit < |s.edits|
    ensures var (s', reply) := Apply(s, c);
            var e := s.edits[c.edit];
            var capacity := match c.asked { case Some(n) => n case None => e.capacity };
            var active := match c.status { case Some(a) => a case None => e.active };
            if MayWrite(s, c, capacity) then
              reply == Done && s' == s.(trips := s.trips[e.trip := Trip(capacity, active, s.trips[e.trip].serviceDate)])
            else s' == s && reply.Refused?
  {
    hide HoldsOk, ReservationsOk;
  }

  // ---- refusals ----

  // A refusal names what is so.
  ghost predicate WhyNoHold(s: State, c: Call, e: Error)
    requires c.CreateCall?
  {
    match e
    case InvalidHoldRequest => !Listed(c.seats)
    case TripUnavailable => !Bookable(s, c.trip, c.serviceDate)
    case InvalidSeats =>
      |c.seats| < 1 || |c.seats| > 6
      || (c.trip < |s.trips| && (s.trips[c.trip].capacity < 1 || s.trips[c.trip].capacity > 80
                                 || exists i :: 0 <= i < |c.seats| && !OnBus(c.seats[i], s.trips[c.trip].capacity)))
    case SeatUnavailable => exists i :: 0 <= i < |c.seats| && Booked(s, c.trip, c.seats[i])
    case SeatHeld => exists i :: 0 <= i < |c.seats| && HeldByAnother(s, c.trip, c.user, c.seats[i])
    case _ => false
  }

  lemma HoldsRefusedTruly(s: State, c: Call)
    requires c.CreateCall? && Apply(s, c).1.Refused?
    ensures WhyNoHold(s, c, Apply(s, c).1.error)
  {
    hide Others, HeldSeat, HeldByAnother;
    forall i | 0 <= i < |c.seats| ensures HeldSeat(Others(s, c.trip, c.user), c.trip, c.seats[i]) <==> HeldByAnother(s, c.trip, c.user, c.seats[i]) {
      OthersAreAnothers(s, c.trip, c.user, c.seats[i]);
    }
  }

  ghost predicate WhyNotReserved(s: State, c: Call, e: Error)
    requires c.ReserveCall?
  {
    match e
    case TripUnavailable => !Bookable(s, c.trip, c.serviceDate)
    case HoldInvalid =>
      !(c.hold in s.holds && s.holds[c.hold].trip == c.trip && s.holds[c.hold].user == c.user && s.now < s.holds[c.hold].expiresAt
        && SameSeats(s.holds[c.hold].seats, c.seats))
    case InvalidSeats =>
      |c.seats| != c.passengers || (exists i, j :: 0 <= i < j < |c.seats| && c.seats[i] == c.seats[j])
      || (c.trip < |s.trips| && (s.trips[c.trip].capacity < 1 || s.trips[c.trip].capacity > 80
                                 || exists i :: 0 <= i < |c.seats| && !OnBus(c.seats[i], s.trips[c.trip].capacity)))
    case SeatUnavailable => exists i :: 0 <= i < |c.seats| && Booked(s, c.trip, c.seats[i])
    case SoldOut => c.trip < |s.trips| && |OccupiedSeats(s.reservations, c.trip)| + |c.seats| > s.trips[c.trip].capacity
    case _ => false
  }

  lemma ReservationsRefusedTruly(s: State, c: Call)
    requires c.ReserveCall? && Apply(s, c).1.Refused?
    ensures WhyNotReserved(s, c, Apply(s, c).1.error)
  {
    hide OccupiedSeats;
    assert c.hold in s.holds ==> (SetsMatch(s.holds[c.hold].seats, c.seats) <==> SameSeats(s.holds[c.hold].seats, c.seats));
  }

  // An edit is refused for its controls exactly when they are out of range, and otherwise for the seats booked by its look.
  lemma EditsRefusedTruly(s: State, c: Call)
    requires Inv(s) && c.WriteCall? && c.edit < |s.edits|
    ensures var e := s.edits[c.edit];
            var capacity := match c.asked { case Some(n) => n case None => e.capacity };
            && (Apply(s, c).1 == Refused(InvalidControls) <==> capacity < 1 || capacity > 80)
            && (Apply(s, c).1 == Refused(CapacityBelowReservations) <==> 1 <= capacity <= 80 && (capacity < e.passengers || capacity < e.floor))
  {
    hide HoldsOk, ReservationsOk;
  }
}

// A seat is in one traveller's hands at a time, a hold is a guarantee until it runs out, and the maintenance batch
// makes no difference to any answer.

module SeatHoldsTheorems {
  import opened Common
  import opened SeatHolds

  // ---- the invariant ----

  ghost predicate HoldOk(s: State, h: nat)
    requires h in s.holds
  {
    var hold := s.holds[h];
    && h < s.nextHold && hold.trip < |s.trips| && 1 <= |hold.seats| <= 6 && Distinct(hold.seats)
    && (forall i :: 0 <= i < |hold.seats| ==> Labelled(hold.seats[i]) && !ReservedSeat(s.reservations, hold.trip, hold.seats[i]))
  }

  ghost predicate Apart(a: Hold, b: Hold) {
    a.trip == b.trip ==> a.user != b.user && forall seat :: seat in a.seats ==> seat !in b.seats
  }

  ghost predicate ReservationOk(s: State, r: Reservation) {
    && r.trip < |s.trips| && Distinct(r.seats)
    && (forall i :: 0 <= i < |r.seats| ==> Labelled(r.seats[i]))
  }

  ghost predicate ReservationsApart(a: Reservation, b: Reservation) {
    a.trip == b.trip ==> forall seat :: seat in a.seats ==> seat !in b.seats
  }

  ghost predicate HoldsOk(s: State) {
    && (forall h :: h in s.holds ==> HoldOk(s, h))
    && (forall g, h :: g in s.holds && h in s.holds && g != h ==> Apart(s.holds[g], s.holds[h]))
  }

  ghost predicate ReservationsOk(s: State) {
    && (forall r :: 0 <= r < |s.reservations| ==> ReservationOk(s, s.reservations[r]))
    && (forall q, r :: 0 <= q < r < |s.reservations| ==> ReservationsApart(s.reservations[q], s.reservations[r]))
  }

  ghost predicate Inv(s: State) {
    && HoldsOk(s) && ReservationsOk(s)
    && (forall e :: 0 <= e < |s.edits| ==> s.edits[e].trip < |s.trips| && 1 <= s.edits[e].capacity <= 80)
    && (forall t :: 0 <= t < |s.trips| ==> 1 <= s.trips[t].capacity <= 80)
  }

  // ---- counting seats ----

  function SetOf(seats: seq<Seat>): set<Seat> { set i | 0 <= i < |seats| :: seats[i] }

  lemma SetOfAppended(seats: seq<Seat>, last: Seat)
    ensures SetOf(seats + [last]) == SetOf(seats) + {last}
  {
    var all := seats + [last];
    forall seat | seat in SetOf(seats) + {last} ensures seat in SetOf(all) {
      if seat == last {
        assert all[|seats|] == seat;
      } else {
        var i :| 0 <= i < |seats| && seats[i] == seat;
        assert all[i] == seat;
      }
    }
  }

  lemma {:induction false} DistinctSize(seats: seq<Seat>)
    requires Distinct(seats)
    ensures |SetOf(seats)| == |seats|
  {
    if seats != [] {
      var rest, last := seats[..|seats| - 1], seats[|seats| - 1];
      DistinctSize(rest);
      SetOfAppended(rest, last);
      assert rest + [last] == seats;
      assert last !in SetOf(rest);
    }
  }

  lemma {:induction false} SubsetSize(a: set<Seat>, b: set<Seat>)
    requires a <= b
    ensures |a| <= |b| && (|a| == |b| ==> a == b)
  {
    if a != {} {
      var seat :| seat in a;
      SubsetSize(a - {seat}, b - {seat});
    }
  }

  // A hold's seats and a booking's seats that match are the same seats.
  lemma MatchingSeats(first: seq<Seat>, second: seq<Seat>)
    requires Distinct(first) && SetsMatch(first, second)
    ensures Distinct(second) ==> forall seat :: seat in second ==> seat in first
    ensures SetsMatch(first, first)
  {
    if Distinct(second) {
      DistinctSize(first);
      DistinctSize(second);
      assert SetOf(first) <= SetOf(second);
      SubsetSize(SetOf(first), SetOf(second));
      forall seat | seat in second ensures seat in first {
        assert seat in SetOf(second);
      }
    }
  }

  // At most n labelled seats have one of the first n places.
  lemma {:induction false} SeatsWithin(seats: set<Seat>, n: nat)
    requires forall seat :: seat in seats ==> Labelled(seat) && Place(seat) <= n
    ensures |seats| <= n
  {
    if n == 0 {
      assert forall seat :: seat in seats ==> 1 <= Place(seat) <= 0;
      assert seats == {};
    } else {
      var last := Seat((n - 1) / 4 + 1, (n - 1) % 4 + 1);
      forall seat | seat in seats && seat != last ensures Place(seat) <= n - 1 {
        OnePlaceOneSeat(seat, last, n);
      }
      SeatsWithin(seats - {last}, n - 1);
      SubsetSize(seats, seats - {last} + {last});
    }
  }

  lemma OnePlaceOneSeat(a: Seat, b: Seat, n: nat)
    requires 1 <= a.column <= 4 && n >= 1 && b == Seat((n - 1) / 4 + 1, (n - 1) % 4 + 1) && a != b
    ensures Place(a) != n
  {
  }

  // ---- what every transaction keeps ----

  lemma ReservedInOccupied(reservations: seq<Reservation>, trip: nat, seat: Seat)
    ensures seat in OccupiedSeats(reservations, trip) <==> ReservedSeat(reservations, trip, seat)
  {
    if seat in OccupiedSeats(reservations, trip) {
      var r, k :| 0 <= r < |reservations| && reservations[r].trip == trip && 0 <= k < |reservations[r].seats| && reservations[r].seats[k] == seat;
      assert seat in reservations[r].seats;
    }
    if ReservedSeat(reservations, trip, seat) {
      var r :| 0 <= r < |reservations| && reservations[r].trip == trip && seat in reservations[r].seats;
      var k :| 0 <= k < |reservations[r].seats| && reservations[r].seats[k] == seat;
    }
  }

  // Fewer holds, everything else the same.
  lemma FewerHolds(s: State, s': State)
    requires Inv(s) && s' == s.(holds := s'.holds)
    requires forall h :: h in s'.holds ==> h in s.holds && s'.holds[h] == s.holds[h]
    ensures Inv(s')
  {
    forall h | h in s'.holds ensures HoldOk(s', h) {
      assert HoldOk(s, h);
    }
    forall r | 0 <= r < |s'.reservations| ensures ReservationOk(s', s'.reservations[r]) {
      assert ReservationOk(s, s.reservations[r]);
    }
  }

  lemma CreateKeepsInv(s: State, c: Call)
    requires Inv(s) && c.CreateCall?
    ensures Inv(Create(s, c).0)
  {
    var (s', reply) := Create(s, c);
    if reply.HoldReply? {
      var others := Others(s, c.trip, c.user);
      var fewer := s.(holds := others);
      FewerHolds(s, fewer);
      forall h | h in s'.holds ensures HoldOk(s', h) {
        if h != s.nextHold {
          assert HoldOk(fewer, h);
        }
      }
      forall g, h | g in s'.holds && h in s'.holds && g != h ensures Apart(s'.holds[g], s'.holds[h]) {
        if g == s.nextHold {
          NewHoldApart(s, c, h);
        } else if h == s.nextHold {
          NewHoldApart(s, c, g);
        } else {
          assert Apart(fewer.holds[g], fewer.holds[h]);
        }
      }
      forall r | 0 <= r < |s'.reservations| ensures ReservationOk(s', s'.reservations[r]) {
        assert ReservationOk(s, s.reservations[r]);
      }
    }
  }

  lemma NewHoldApart(s: State, c: Call, h: nat)
    requires c.CreateCall? && Create(s, c).1.HoldReply? && h in Others(s, c.trip, c.user) && h != s.nextHold
    ensures var s' := Create(s, c).0; Apart(s'.holds[s.nextHold], s'.holds[h]) && Apart(s'.holds[h], s'.holds[s.nextHold])
  {
    var others := Others(s, c.trip, c.user);
    if others[h].trip == c.trip {
      forall seat | seat in c.seats ensures seat !in others[h].seats {
        var i :| 0 <= i < |c.seats| && c.seats[i] == seat;
        assert !HeldSeat(others, c.trip, c.seats[i]);
      }
    }
  }

  lemma ReserveKeepsInv(s: State, c: Call)
    requires Inv(s) && c.ReserveCall?
    ensures Inv(Reserve(s, c).0)
  {
    var (s', reply) := Reserve(s, c);
    if reply.ReservationReply? {
      assert HoldOk(s, c.hold);
      MatchingSeats(s.holds[c.hold].seats, c.seats);
      forall h | h in s'.holds ensures HoldOk(s', h) {
        assert HoldOk(s, h) && Apart(s.holds[h], s.holds[c.hold]);
        forall i | 0 <= i < |s.holds[h].seats| ensures !ReservedSeat(s'.reservations, s.holds[h].trip, s.holds[h].seats[i]) {
          assert !ReservedSeat(s.reservations, s.holds[h].trip, s.holds[h].seats[i]);
          assert forall r :: 0 <= r < |s.reservations| ==> s'.reservations[r] == s.reservations[r];
        }
      }
      assert s.trips[c.trip].capacity <= 80;
      forall i | 0 <= i < |c.seats| ensures Labelled(c.seats[i]) {
        assert c.seats[i] in s.holds[c.hold].seats;
      }
      forall r | 0 <= r < |s'.reservations| ensures ReservationOk(s', s'.reservations[r]) {
        if r < |s.reservations| {
          assert ReservationOk(s, s.reservations[r]);
        }
      }
      forall q | 0 <= q < |s.reservations| ensures ReservationsApart(s'.reservations[q], s'.reservations[|s.reservations|]) {
        if s.reservations[q].trip == c.trip {
          forall seat | seat in s.reservations[q].seats ensures seat !in c.seats {
            assert ReservedSeat(s.reservations, c.trip, seat);
          }
        }
      }
    }
  }

  lemma EditKeepsInv(s: State, c: Call)
    requires Inv(s) && (c.LookCall? || c.WriteCall? || c.ScheduleCall?)
    ensures Inv(Apply(s, c).0)
  {
    var s' := Apply(s, c).0;
    if s' != s {
      forall h | h in s'.holds ensures HoldOk(s', h) {
        assert HoldOk(s, h);
      }
      forall r | 0 <= r < |s'.reservations| ensures ReservationOk(s', s'.reservations[r]) {
        assert ReservationOk(s, s.reservations[r]);
      }
    }
  }

  lemma ApplyKeepsInv(s: State, c: Call)
    requires Inv(s)
    ensures Inv(Apply(s, c).0)
  {
    if c.ScheduleCall? || c.LookCall? || c.WriteCall? { EditKeepsInv(s, c); }
    else if c.CreateCall? { CreateKeepsInv(s, c); }
    else if c.ReserveCall? { ReserveKeepsInv(s, c); }
    else if c.TickCall? { FewerHolds(s, s); ReadOnlyClock(s, Apply(s, c).0); }
    else { FewerHolds(s, Apply(s, c).0); }
  }

  lemma ReadOnlyClock(s: State, s': State)
    requires Inv(s) && s' == s.(now := s'.now)
    ensures Inv(s')
  {
    forall h | h in s'.holds ensures HoldOk(s', h) {
      assert HoldOk(s, h);
    }
    forall r | 0 <= r < |s'.reservations| ensures ReservationOk(s', s'.reservations[r]) {
      assert ReservationOk(s, s.reservations[r]);
    }
  }

  lemma {:induction false} RunKeepsInv(now: int, calls: seq<Call>)
    ensures Inv(Run(Opening(now), calls))
  {
    if calls != [] {
      RunKeepsInv(now, calls[..|calls| - 1]);
      ApplyKeepsInv(Run(Opening(now), calls[..|calls| - 1]), calls[|calls| - 1]);
    }
  }

  // ---- a seat is in one place ----

  // In every reachable state: a seat of a trip is in at most one hold, in at most one reservation and never in both;
  // a traveller has at most one hold on a trip.
  lemma {:induction false} SeatsAreInOneHand(now: int, calls: seq<Call>, trip: nat, seat: Seat)
    ensures var s := Run(Opening(now), calls);
            && (forall g, h :: g in s.holds && h in s.holds && g != h && s.holds[g].trip == s.holds[h].trip == trip ==>
                  s.holds[g].user != s.holds[h].user && (seat !in s.holds[g].seats || seat !in s.holds[h].seats))
            && (forall q, r :: 0 <= q < r < |s.reservations| && s.reservations[q].trip == s.reservations[r].trip == trip ==>
                  seat !in s.reservations[q].seats || seat !in s.reservations[r].seats)
            && (HeldSeat(s.holds, trip, seat) ==> !ReservedSeat(s.reservations, trip, seat))
  {
    RunKeepsInv(now, calls);
    var s := Run(Opening(now), calls);
    forall q, r | 0 <= q < r < |s.reservations| && s.reservations[q].trip == s.reservations[r].trip == trip
      ensures seat !in s.reservations[q].seats || seat !in s.reservations[r].seats
    {
      assert ReservationsApart(s.reservations[q], s.reservations[r]);
    }
    if HeldSeat(s.holds, trip, seat) {
      var h :| h in s.holds && s.holds[h].trip == trip && seat in s.holds[h].seats;
      assert HoldOk(s, h);
    }
  }

  // ---- the capacity and the operator's edits ----

  // Every reserved seat of the trip is on its bus.
  ghost predicate Sits(s: State, trip: nat) {
    trip < |s.trips| ==> SeatFloor(s.reservations, trip) <= s.trips[trip].capacity
  }

  lemma {:induction false} HighestIsHighest(seats: seq<Seat>)
    ensures HighestPlace(seats) >= 0
    ensures forall seat :: seat in seats ==> Place(seat) <= HighestPlace(seats)
    ensures HighestPlace(seats) > 0 ==> exists seat :: seat in seats && Place(seat) == HighestPlace(seats)
  {
    if seats != [] {
      var before, last := seats[..|seats| - 1], seats[|seats| - 1];
      HighestIsHighest(before);
      assert seats == before + [last];
      assert last in seats;
    }
  }

  lemma ReservedWithLast(reservations: seq<Reservation>, trip: nat, seat: Seat)
    requires reservations != []
    ensures var last := reservations[|reservations| - 1];
            ReservedSeat(reservations, trip, seat)
            <==> ReservedSeat(reservations[..|reservations| - 1], trip, seat) || (last.trip == trip && seat in last.seats)
  {
    var before := reservations[..|reservations| - 1];
    if r :| 0 <= r < |reservations| && reservations[r].trip == trip && seat in reservations[r].seats {
      assert r < |before| ==> before[r] == reservations[r];
    }
    if r :| 0 <= r < |before| && before[r].trip == trip && seat in before[r].seats {
      assert before[r] == reservations[r];
    }
  }

  lemma {:induction false} FloorIsHighestReserved(reservations: seq<Reservation>, trip: nat)
    ensures SeatFloor(reservations, trip) >= 0
    ensures forall seat :: ReservedSeat(reservations, trip, seat) ==> Place(seat) <= SeatFloor(reservations, trip)
    ensures SeatFloor(reservations, trip) > 0 ==>
              exists seat :: ReservedSeat(reservations, trip, seat) && Place(seat) == SeatFloor(reservations, trip)
  {
    if reservations != [] {
      var before, last := reservations[..|reservations| - 1], reservations[|reservations| - 1];
      var floor := SeatFloor(reservations, trip);
      FloorIsHighestReserved(before, trip);
      HighestIsHighest(last.seats);
      hide HighestPlace, Place, SeatFloor, ReservedSeat;
      forall seat ensures ReservedSeat(reservations, trip, seat)
                          <==> ReservedSeat(before, trip, seat) || (last.trip == trip && seat in last.seats) {
        ReservedWithLast(reservations, trip, seat);
      }
      if SeatFloor(before, trip) == floor > 0 {
        var seat :| ReservedSeat(before, trip, seat) && Place(seat) == floor;
        assert ReservedSeat(reservations, trip, seat);
      }
    }
  }

  // The edit that is written: accepted, and for this trip.
  ghost predicate Writes(s: State, c: Call, trip: nat) {
    c.WriteCall? && Write(s, c).1 == Done && s.edits[c.edit].trip == trip
  }

  // It leaves a seat outside the bus that is reserved by now; when it looked there was none.
  ghost predicate CutsBelow(s: State, c: Call, trip: nat) {
    Writes(s, c, trip) && WrittenCapacity(s, c) < SeatFloor(s.reservations, trip)
  }

  lemma CutsAreStale(s: State, c: Call, trip: nat)
    requires CutsBelow(s, c, trip)
    ensures s.edits[c.edit].floor < SeatFloor(s.reservations, trip)
    ensures exists seat :: ReservedSeat(s.reservations, trip, seat) && Place(seat) > WrittenCapacity(s, c)
  {
    FloorIsHighestReserved(s.reservations, trip);
  }

  // Reservations only take places on the bus, so only a write decides: one that cuts leaves a seat outside, one that
  // does not brings every seat back.
  lemma {:induction false} OnlyWritesDecide(s: State, c: Call, trip: nat)
    requires Inv(s)
    ensures Sits(Apply(s, c).0, trip) <==> if Writes(s, c, trip) then !CutsBelow(s, c, trip) else Sits(s, trip)
  {
    var s' := Apply(s, c).0;
    if c.ReserveCall? && Reserve(s, c).1.ReservationReply? {
      assert s'.reservations[..|s'.reservations| - 1] == s.reservations;
      HighestIsHighest(c.seats);
      if HighestPlace(c.seats) > 0 {
        var seat :| seat in c.seats && Place(seat) == HighestPlace(c.seats);
        assert Place(seat) <= s.trips[c.trip].capacity;
      }
    } else if c.ScheduleCall? && trip == |s.trips| {
      NothingReserved(s, trip);
    } else {
      assert s'.reservations == s.reservations;
    }
  }

  lemma NothingReserved(s: State, trip: nat)
    requires Inv(s) && trip >= |s.trips|
    ensures SeatFloor(s.reservations, trip) == 0
  {
    FloorIsHighestReserved(s.reservations, trip);
    forall r | 0 <= r < |s.reservations| ensures s.reservations[r].trip != trip {
      assert ReservationOk(s, s.reservations[r]);
    }
  }

  // A write later in the run that does not cut.
  ghost predicate Mended(now: int, calls: seq<Call>, n: nat, trip: nat) {
    exists m :: n < m < |calls| && Writes(Run(Opening(now), calls[..m]), calls[m], trip)
                && !CutsBelow(Run(Opening(now), calls[..m]), calls[m], trip)
  }

  ghost predicate CutAt(now: int, calls: seq<Call>, n: nat, trip: nat)
    requires n < |calls|
  {
    CutsBelow(Run(Opening(now), calls[..n]), calls[n], trip)
  }

  // Every write that left a reserved seat outside was followed by one that did not.
  ghost predicate AllMended(now: int, calls: seq<Call>, trip: nat) {
    forall n: nat :: n < |calls| && CutAt(now, calls, n, trip) ==> Mended(now, calls, n, trip)
  }

  // Over every run: all reserved seats of a trip are on its bus exactly when every write that left one outside was
  // followed by one that did not.
  lemma {:induction false} SeatsAreOnTheBusExactlyWithoutCuts(now: int, calls: seq<Call>, trip: nat)
    ensures Sits(Run(Opening(now), calls), trip)
            <==> AllMended(now, calls, trip)
  {
    hide Apply, Sits, CutsBelow, Writes;
    if calls == [] {
      OpeningSits(now, trip);
    } else {
      var last := |calls| - 1;
      var before := calls[..last];
      RunKeepsInv(now, before);
      SeatsAreOnTheBusExactlyWithoutCuts(now, before, trip);
      OnlyWritesDecide(Run(Opening(now), before), calls[last], trip);
      LastWriteMends(now, calls, trip);
    }
  }

  lemma OpeningSits(now: int, trip: nat)
    ensures Sits(Run(Opening(now), []), trip)
  {
  }

  lemma LastWriteMends(now: int, calls: seq<Call>, trip: nat)
    requires calls != []
    ensures var s, c, before := Run(Opening(now), calls[..|calls| - 1]), calls[|calls| - 1], calls[..|calls| - 1];
            AllMended(now, calls, trip) <==> if Writes(s, c, trip) then !CutsBelow(s, c, trip) else AllMended(now, before, trip)
  {
    hide Run, CutsBelow, Writes;
    var last := |calls| - 1;
    var s, c, before := Run(Opening(now), calls[..last]), calls[last], calls[..last];
    assert forall n :: 0 <= n < last ==> before[..n] == calls[..n] && before[n] == calls[n];
    CutsAreWrites(s, c, trip);
    assert !Mended(now, calls, last, trip);
    if Writes(s, c, trip) {
      assert CutAt(now, calls, last, trip) <==> CutsBelow(s, c, trip);
      if !CutsBelow(s, c, trip) {
        forall n: nat | n < |calls| && CutAt(now, calls, n, trip) ensures Mended(now, calls, n, trip) {
          assert n < last < |calls| && Writes(Run(Opening(now), calls[..last]), calls[last], trip);
        }
      }
    } else {
      forall n: nat | n < last
        ensures CutAt(now, calls, n, trip) <==> CutAt(now, before, n, trip)
        ensures Mended(now, calls, n, trip) <==> Mended(now, before, n, trip)
      {
        SameMends(now, calls, n, trip);
      }
    }
  }

  lemma CutsAreWrites(s: State, c: Call, trip: nat)
    ensures CutsBelow(s, c, trip) ==> Writes(s, c, trip)
  {
  }

  lemma SameMends(now: int, calls: seq<Call>, n: nat, trip: nat)
    requires n < |calls| - 1 && !Writes(Run(Opening(now), calls[..|calls| - 1]), calls[|calls| - 1], trip)
    ensures Mended(now, calls, n, trip) <==> Mended(now, calls[..|calls| - 1], n, trip)
  {
    hide Run, CutsBelow, Writes;
    var before := calls[..|calls| - 1];
    if m :| n < m < |calls| && Writes(Run(Opening(now), calls[..m]), calls[m], trip)
            && !CutsBelow(Run(Opening(now), calls[..m]), calls[m], trip) {
      assert m < |before| && before[..m] == calls[..m];
    }
    if m :| n < m < |before| && Writes(Run(Opening(now), before[..m]), before[m], trip)
            && !CutsBelow(Run(Opening(now), before[..m]), before[m], trip) {
      assert before[..m] == calls[..m];
    }
  }

  // While every reserved seat is on the bus, the reserved seats never outnumber its capacity.
  lemma {:induction false} TripsNeverOversell(now: int, calls: seq<Call>, trip: nat)
    requires trip < |Run(Opening(now), calls).trips|
    requires AllMended(now, calls, trip)
    ensures var s := Run(Opening(now), calls); |OccupiedSeats(s.reservations, trip)| <= s.trips[trip].capacity
  {
    hide Run, Mended, CutAt;
    RunKeepsInv(now, calls);
    SeatsAreOnTheBusExactlyWithoutCuts(now, calls, trip);
    OccupiedWithin(Run(Opening(now), calls), trip, {});
  }

  lemma OccupiedWithin(s: State, trip: nat, more: set<Seat>)
    requires Inv(s) && trip < |s.trips| && Sits(s, trip)
    requires forall seat :: seat in more ==> Labelled(seat) && Place(seat) <= s.trips[trip].capacity && !ReservedSeat(s.reservations, trip, seat)
    ensures |OccupiedSeats(s.reservations, trip)| + |more| <= s.trips[trip].capacity
  {
    var occupied := OccupiedSeats(s.reservations, trip);
    FloorIsHighestReserved(s.reservations, trip);
    forall seat | seat in occupied + more ensures Labelled(seat) && Place(seat) <= s.trips[trip].capacity {
      if seat in occupied {
        ReservedInOccupied(s.reservations, trip, seat);
        ReservedIsLabelled(s, trip, seat);
      }
    }
    assert occupied !! more by {
      forall seat | seat in occupied ensures seat !in more {
        ReservedInOccupied(s.reservations, trip, seat);
      }
    }
    SeatsWithin(occupied + more, s.trips[trip].capacity);
  }

  lemma ReservedIsLabelled(s: State, trip: nat, seat: Seat)
    requires Inv(s) && ReservedSeat(s.reservations, trip, seat)
    ensures Labelled(seat)
  {
    var r :| 0 <= r < |s.reservations| && s.reservations[r].trip == trip && seat in s.reservations[r].seats;
    assert ReservationOk(s, s.reservations[r]);
  }

  // ---- create and the seat map agree ----

  // For a valid list on an active trip, creating a hold succeeds exactly when no seat of the list shows as unavailable
  // to that traveller; otherwise nothing changes.
  lemma CreateAgreesWithSeatMap(s: State, c: Call)
    requires c.CreateCall? && c.trip < |s.trips| && s.trips[c.trip].active && s.trips[c.trip].serviceDate == c.serviceDate
    requires Distinct(c.seats) && 1 <= |c.seats| <= 6 && Fit(c.seats, s.trips[c.trip].capacity)
    requires forall i :: 0 <= i < |c.seats| ==> Labelled(c.seats[i])
    ensures Create(s, c).1.HoldReply? <==> forall seat :: seat in c.seats ==> !Unavailable(s, c.trip, s.now, Some(c.user), seat)
    ensures !Create(s, c).1.HoldReply? ==> Create(s, c).0 == s
  {
    var others := Others(s, c.trip, c.user);
    forall seat ensures Unavailable(s, c.trip, s.now, Some(c.user), seat)
                        <==> ReservedSeat(s.reservations, c.trip, seat) || HeldSeat(others, c.trip, seat)
    {
      if HeldSeat(others, c.trip, seat) {
        var h :| h in others && others[h].trip == c.trip && seat in others[h].seats;
        assert h in s.holds && s.holds[h] == others[h];
      }
      if h :| h in s.holds && s.holds[h].trip == c.trip && s.holds[h].expiresAt > s.now && s.holds[h].user != c.user && seat in s.holds[h].seats {
        assert h in others && others[h] == s.holds[h];
      }
    }
    assert forall i :: 0 <= i < |c.seats| ==> c.seats[i] in c.seats;
  }

  // ---- a hold is a guarantee ----

  // A call that leaves a traveller's hold on a trip alone: not theirs on that trip. The operator may edit the trip.
  predicate Leaves(c: Call, trip: nat, user: nat) {
    && (c.CreateCall? ==> c.trip != trip || c.user != user)
    && (c.ReleaseCall? ==> c.user != user)
    && (c.ReserveCall? ==> c.user != user)
  }

  lemma HoldSurvivesStep(s: State, c: Call, hold: nat)
    requires Inv(s) && hold in s.holds && s.now < s.holds[hold].expiresAt && Leaves(c, s.holds[hold].trip, s.holds[hold].user)
    ensures var s', trip := Apply(s, c).0, s.holds[hold].trip;
            && hold in s'.holds && s'.holds[hold] == s.holds[hold] && s.now <= s'.now
            && trip < |s.trips| <= |s'.trips| && s'.trips[trip].serviceDate == s.trips[trip].serviceDate
            && (!Writes(s, c, trip) ==> s'.trips[trip] == s.trips[trip])
  {
    assert HoldOk(s, hold);
  }

  // No edit of the trip is written during the calls.
  ghost predicate Unedited(s: State, calls: seq<Call>, trip: nat) {
    forall k :: 0 <= k < |calls| ==> !Writes(Run(s, calls[..k]), calls[k], trip)
  }

  lemma UneditedBefore(s: State, calls: seq<Call>, trip: nat)
    requires calls != [] && Unedited(s, calls, trip)
    ensures var before := calls[..|calls| - 1]; Unedited(s, before, trip) && !Writes(Run(s, before), calls[|calls| - 1], trip)
  {
    hide Run, Writes;
    var before := calls[..|calls| - 1];
    assert forall k :: 0 <= k < |before| ==> before[..k] == calls[..k] && before[k] == calls[k];
  }

  lemma {:induction false} HoldSurvives(s: State, calls: seq<Call>, hold: nat)
    requires Inv(s) && hold in s.holds && Run(s, calls).now < s.holds[hold].expiresAt
    requires forall k :: 0 <= k < |calls| ==> Leaves(calls[k], s.holds[hold].trip, s.holds[hold].user)
    ensures var s', trip := Run(s, calls), s.holds[hold].trip;
            && Inv(s') && hold in s'.holds && s'.holds[hold] == s.holds[hold] && s.now <= s'.now
            && trip < |s.trips| <= |s'.trips| && s'.trips[trip].serviceDate == s.trips[trip].serviceDate
            && (Unedited(s, calls, trip) ==> s'.trips[trip] == s.trips[trip] && (Sits(s, trip) ==> Sits(s', trip)))
  {
    hide Apply, Sits, Writes, Leaves;
    HoldIsOfATrip(s, hold);
    hide Inv;
    if calls != [] {
      var before, c, trip := Run(s, calls[..|calls| - 1]), calls[|calls| - 1], s.holds[hold].trip;
      ClockMovesForward(before, c);
      HoldSurvives(s, calls[..|calls| - 1], hold);
      HoldSurvivesStep(before, c, hold);
      ApplyKeepsInv(before, c);
      OnlyWritesDecide(before, c, trip);
      if Unedited(s, calls, trip) {
        UneditedBefore(s, calls, trip);
      }
    }
  }

  lemma HoldIsOfATrip(s: State, hold: nat)
    requires Inv(s) && hold in s.holds
    ensures s.holds[hold].trip < |s.trips|
  {
    assert HoldOk(s, hold);
  }

  lemma ClockMovesForward(s: State, c: Call)
    ensures s.now <= Apply(s, c).0.now
  {
  }

  // There is room for so many more by the count of reserved seats.
  ghost predicate Room(s: State, trip: nat, count: nat) {
    trip < |s.trips| && |OccupiedSeats(s.reservations, trip)| + count <= s.trips[trip].capacity
  }

  function ReserveHeld(h: Hold, serviceDate: int, hold: nat): Call {
    ReserveCall(h.trip, serviceDate, h.user, hold, h.seats, |h.seats|)
  }

  // A running hold can be reserved exactly while its trip is active, its seats fit the trip and the count leaves room;
  // while every reserved seat is on the bus, the count always does.
  lemma HeldSeatsCanBeReserved(s: State, hold: nat)
    requires Inv(s) && hold in s.holds && s.now < s.holds[hold].expiresAt
    ensures s.holds[hold].trip < |s.trips|
    ensures var h := s.holds[hold];
            var trip := s.trips[h.trip];
            && (Reserve(s, ReserveHeld(h, trip.serviceDate, hold)).1.ReservationReply?
                <==> trip.active && Fit(h.seats, trip.capacity) && Room(s, h.trip, |h.seats|))
            && (Sits(s, h.trip) && Fit(h.seats, trip.capacity) ==> Room(s, h.trip, |h.seats|))
  {
    var h := s.holds[hold];
    assert HoldOk(s, hold);
    MatchingSeatsSelf(h.seats);
    DistinctSize(h.seats);
    if Fit(h.seats, s.trips[h.trip].capacity) && Sits(s, h.trip) {
      OccupiedWithin(s, h.trip, SetOf(h.seats));
    }
  }

  lemma CreatedHold(s: State, c: Call)
    requires c.CreateCall? && Create(s, c).1.HoldReply?
    ensures var (s', reply) := Create(s, c);
            && reply.hold in s'.holds && s'.holds[reply.hold] == Hold(c.trip, c.user, c.seats, s.now + HOLD_MILLISECONDS)
            && c.trip < |s'.trips| && s'.trips[c.trip].active && s'.trips[c.trip].serviceDate == c.serviceDate
            && Fit(c.seats, s'.trips[c.trip].capacity) && (Sits(s, c.trip) ==> Sits(s', c.trip))
  {
  }

  // Whatever other travellers, the operator and the maintenance batch do meanwhile, a traveller who reserves the held
  // seats before the hold runs out gets them exactly if the trip is active by then, the seats fit it and the count
  // leaves room; if the trip was not edited in between and all its reserved seats were on the bus, they get them.
  lemma {:induction false} HoldGuaranteesReservation(s: State, create: Call, calls: seq<Call>)
    requires Inv(s) && create.CreateCall? && Create(s, create).1.HoldReply?
    requires forall k :: 0 <= k < |calls| ==> Leaves(calls[k], create.trip, create.user)
    requires Run(Create(s, create).0, calls).now < s.now + HOLD_MILLISECONDS
    ensures var s1, hold := Create(s, create).0, Create(s, create).1.hold;
            var later := Run(s1, calls);
            var reserve := ReserveCall(create.trip, create.serviceDate, create.user, hold, create.seats, |create.seats|);
            && create.trip < |later.trips|
            && (Reserve(later, reserve).1.ReservationReply?
                <==> later.trips[create.trip].active && Fit(create.seats, later.trips[create.trip].capacity)
                     && Room(later, create.trip, |create.seats|))
            && (Sits(s, create.trip) && Unedited(s1, calls, create.trip) ==> Reserve(later, reserve).1.ReservationReply?)
  {
    hide Run, Create, Reserve, Inv, Sits, Unedited, Room;
    var s1, hold := Create(s, create).0, Create(s, create).1.hold;
    CreateKeepsInv(s, create);
    CreatedHold(s, create);
    HoldSurvives(s1, calls, hold);
    HeldSeatsCanBeReserved(Run(s1, calls), hold);
  }

  lemma MatchingSeatsSelf(seats: seq<Seat>)
    ensures SetsMatch(seats, seats)
  {
  }

  lemma SoldOutMeansNoRoom(s: State, c: Call)
    requires Inv(s) && c.ReserveCall? && Reserve(s, c).1 == Refused(SoldOut)
    ensures !Sits(s, c.trip)
  {
    if Sits(s, c.trip) {
      assert HoldOk(s, c.hold);
      MatchingSeats(s.holds[c.hold].seats, c.seats);
      DistinctSize(c.seats);
      forall seat | seat in SetOf(c.seats)
        ensures Labelled(seat) && Place(seat) <= s.trips[c.trip].capacity && !ReservedSeat(s.reservations, c.trip, seat)
      {
        assert seat in c.seats && seat in s.holds[c.hold].seats;
      }
      OccupiedWithin(s, c.trip, SetOf(c.seats));
    }
  }

  // The sold-out answer is given only after a write that left a reserved seat outside the bus and was not mended:
  // seats that fit and are free otherwise always fit the count.
  lemma {:induction false} SoldOutOnlyAfterCuts(now: int, calls: seq<Call>, c: Call)
    requires c.ReserveCall? && Reserve(Run(Opening(now), calls), c).1 == Refused(SoldOut)
    ensures exists n: nat :: n < |calls| && CutAt(now, calls, n, c.trip) && !Mended(now, calls, n, c.trip)
  {
    hide Run, Mended, CutAt, Reserve;
    RunKeepsInv(now, calls);
    SoldOutMeansNoRoom(Run(Opening(now), calls), c);
    SeatsAreOnTheBusExactlyWithoutCuts(now, calls, c.trip);
  }

  // ---- runs that show it ----

  lemma {:induction false} RunPrefix(s: State, calls: seq<Call>, n: nat)
    requires n < |calls|
    ensures Run(s, calls[..n + 1]) == Apply(Run(s, calls[..n]), calls[n]).0
  {
    assert calls[..n + 1][..n] == calls[..n];
  }

  // A trip of eight seats.
  function Bus(capacity: int, holds: map<nat, Hold>, nextHold: nat, reservations: seq<Reservation>, edits: seq<Edit>): State {
    State(0, [Trip(capacity, true, 5)], holds, nextHold, reservations, edits)
  }

  const UNRESERVED := Edit(0, 8, true, 0, 0)

  function RowOfSeats(row: int): (r: seq<Seat>)
    ensures |r| == 4 && forall i :: 0 <= i < 4 ==> r[i] == Seat(row, i + 1)
  {
    [Seat(row, 1), Seat(row, 2), Seat(row, 3), Seat(row, 4)]
  }

  // The operator looks while nothing is reserved; then the second row is held and reserved, and 1A held by another.
  const FRONT := [Seat(1, 1)]
  const SECOND_ROW := RowOfSeats(2)
  const LATE_WRITE :=
    [ScheduleCall(8, 5), LookCall(0), CreateCall(0, 5, 1, SECOND_ROW), ReserveCall(0, 5, 1, 0, SECOND_ROW, 4),
     CreateCall(0, 5, 2, FRONT), WriteCall(0, Some(3), None)]

  lemma SecondRowPlaces()
    ensures |SECOND_ROW| == 4 && Distinct(SECOND_ROW) && Fit(SECOND_ROW, 8) && FRONT[0] !in SECOND_ROW
    ensures forall i :: 0 <= i < 4 ==> Labelled(SECOND_ROW[i])
  {
    hide RowOfSeats;
    SeatsOfARow(2);
  }

  lemma FrontPlace()
    ensures Fit(FRONT, 3) && Fit(FRONT, 8)
  {
    hide Fit;
    OneSeatFits(Seat(1, 1), 3);
    OneSeatFits(Seat(1, 1), 8);
  }

  lemma OneSeatFits(seat: Seat, capacity: int)
    requires 1 <= capacity <= 80
    ensures Fit([seat], capacity) <==> Place(seat) <= capacity
  {
    hide Place;
    assert [seat][0] == seat;
  }

  lemma SeatsOfARow(row: int)
    requires 1 <= row <= 20
    ensures Distinct(RowOfSeats(row)) && Fit(RowOfSeats(row), 4 * row)
    ensures forall i :: 0 <= i < 4 ==> Labelled(RowOfSeats(row)[i])
  {
    hide RowOfSeats;
  }

  lemma SecondRowIsHeld()
    ensures Apply(Bus(8, map[], 0, [], [UNRESERVED]), LATE_WRITE[2]).0
            == Bus(8, map[0 := Hold(0, 1, SECOND_ROW, HOLD_MILLISECONDS)], 1, [], [UNRESERVED])
  {
    SecondRowPlaces();
    hide Place, Fit;
    var s := Bus(8, map[], 0, [], [UNRESERVED]);
    assert Others(s, 0, 1) == map[];
  }

  lemma SecondRowIsReserved()
    ensures Apply(Bus(8, map[0 := Hold(0, 1, SECOND_ROW, HOLD_MILLISECONDS)], 1, [], [UNRESERVED]), LATE_WRITE[3]).0
            == Bus(8, map[], 1, [Reservation(0, 1, SECOND_ROW)], [UNRESERVED])
  {
    SecondRowPlaces();
    hide Place, Fit;
    var s := Bus(8, map[0 := Hold(0, 1, SECOND_ROW, HOLD_MILLISECONDS)], 1, [], [UNRESERVED]);
    MatchingSeatsSelf(SECOND_ROW);
    assert OccupiedSeats(s.reservations, 0) == {};
    assert s.holds - {0} == map[];
  }

  lemma FrontIsHeld(capacity: int, holds: map<nat, Hold>, nextHold: nat, user: nat)
    requires capacity in {3, 8} && holds == map[]
    ensures var s := Bus(capacity, holds, nextHold, [Reservation(0, 1, SECOND_ROW)], [UNRESERVED]);
            Create(s, CreateCall(0, 5, user, FRONT))
            == (s.(holds := map[nextHold := Hold(0, user, FRONT, HOLD_MILLISECONDS)], nextHold := nextHold + 1), HoldReply(nextHold))
  {
    SecondRowPlaces();
    FrontPlace();
    hide Place, Fit;
    var s := Bus(capacity, holds, nextHold, [Reservation(0, 1, SECOND_ROW)], [UNRESERVED]);
    assert Others(s, 0, user) == map[];
  }

  lemma {:induction false} AfterLateWrite()
    ensures Run(Opening(0), LATE_WRITE)
            == Bus(3, map[1 := Hold(0, 2, FRONT, HOLD_MILLISECONDS)], 2, [Reservation(0, 1, SECOND_ROW)], [UNRESERVED])
  {
    var o := Opening(0);
    assert LATE_WRITE[..0] == [] && LATE_WRITE[..6] == LATE_WRITE;
    assert Run(o, []) == o;
    RunPrefix(o, LATE_WRITE, 0);
    RunPrefix(o, LATE_WRITE, 1);
    RunPrefix(o, LATE_WRITE, 2);
    RunPrefix(o, LATE_WRITE, 3);
    RunPrefix(o, LATE_WRITE, 4);
    RunPrefix(o, LATE_WRITE, 5);
    assert Apply(o, LATE_WRITE[0]).0 == Bus(8, map[], 0, [], []);
    assert Apply(Bus(8, map[], 0, [], []), LATE_WRITE[1]).0 == Bus(8, map[], 0, [], [UNRESERVED]);
    SecondRowIsHeld();
    SecondRowIsReserved();
    FrontIsHeld(8, map[], 1, 2);
    hide Run, Create, Reserve, Schedule, Look, Place;
  }

  // The write of a capacity of three, looked up before the second row was reserved, is accepted: four seats of three are
  // reserved, the running hold on 1A, on an active trip that it fits, is refused as sold out, and so is one made later.
  lemma {:induction false} LateWriteOversellsTheTrip()
    ensures var s := Run(Opening(0), LATE_WRITE);
            && |s.trips| > 0 && s.trips[0].capacity == 3 && |OccupiedSeats(s.reservations, 0)| == 4
            && 1 in s.holds && s.now < s.holds[1].expiresAt && s.trips[0].active && Fit(s.holds[1].seats, 3)
            && Reserve(s, ReserveCall(0, 5, 2, 1, FRONT, 1)).1 == Refused(SoldOut)
    ensures var s := Release(Run(Opening(0), LATE_WRITE), ReleaseCall(1, 2)).0;
            && Create(s, CreateCall(0, 5, 3, FRONT)).1 == HoldReply(2)
            && Reserve(Create(s, CreateCall(0, 5, 3, FRONT)).0, ReserveCall(0, 5, 3, 2, FRONT, 1)).1 == Refused(SoldOut)
  {
    AfterLateWrite();
    var s := Run(Opening(0), LATE_WRITE);
    hide Run;
    SecondRowIsOccupied();
    FrontIsSoldOut(1, 2, 2);
    var released := Release(s, ReleaseCall(1, 2)).0;
    assert released.holds == map[];
    FrontIsHeld(3, map[], 2, 3);
    FrontIsSoldOut(2, 3, 3);
    SecondRowPlaces();
    FrontPlace();
  }

  lemma OneReservationOccupies(reservation: Reservation)
    ensures OccupiedSeats([reservation], reservation.trip) == SetOf(reservation.seats)
  {
    var reservations := [reservation];
    forall seat ensures seat in OccupiedSeats(reservations, reservation.trip) <==> seat in SetOf(reservation.seats) {
      ReservedInOccupied(reservations, reservation.trip, seat);
      if seat in SetOf(reservation.seats) {
        assert seat in reservations[0].seats;
      }
    }
  }

  lemma SecondRowIsOccupied()
    ensures |OccupiedSeats([Reservation(0, 1, SECOND_ROW)], 0)| == 4
  {
    SecondRowPlaces();
    OneReservationOccupies(Reservation(0, 1, SECOND_ROW));
    hide OccupiedSeats, SetOf, Fit;
    DistinctSize(SECOND_ROW);
  }

  lemma FrontIsSoldOut(hold: nat, nextHold: nat, user: nat)
    ensures var s := Bus(3, map[hold := Hold(0, user, FRONT, HOLD_MILLISECONDS)], nextHold, [Reservation(0, 1, SECOND_ROW)], [UNRESERVED]);
            Reserve(s, ReserveCall(0, 5, user, hold, FRONT, 1)).1 == Refused(SoldOut)
  {
    SecondRowPlaces();
    FrontPlace();
    SecondRowIsOccupied();
    hide Place, OccupiedSeats, Fit;
    MatchingSeatsSelf(FRONT);
  }

  // A run that holds the last seat, and then looks.
  const LAST := [Seat(2, 4)]
  const LAST_HELD := [ScheduleCall(8, 5), CreateCall(0, 5, 1, LAST), LookCall(0)]

  lemma {:induction false} AfterLastHeld()
    ensures Run(Opening(0), LAST_HELD) == Bus(8, map[0 := Hold(0, 1, LAST, HOLD_MILLISECONDS)], 1, [], [UNRESERVED])
  {
    var o := Opening(0);
    assert LAST_HELD[..0] == [] && LAST_HELD[..3] == LAST_HELD;
    assert Run(o, []) == o;
    RunPrefix(o, LAST_HELD, 0);
    RunPrefix(o, LAST_HELD, 1);
    RunPrefix(o, LAST_HELD, 2);
    hide Run;
    var s := Bus(8, map[], 0, [], []);
    assert Run(o, LAST_HELD[..1]) == s;
    assert Others(s, 0, 1) == map[];
    assert Place(LAST[0]) == 8;
  }

  // An edit breaks the guarantee even when nothing is reserved in between: it looks at reservations only, so it can
  // leave a held seat outside the bus.
  lemma {:induction false} EditIgnoresHolds()
    ensures var s, reserve := Run(Opening(0), LAST_HELD), ReserveCall(0, 5, 1, 0, LAST, 1);
            var (edited, reply) := Write(s, WriteCall(0, Some(4), None));
            && Reserve(s, reserve).1 == ReservationReply(0)
            && reply == Done && Reserve(edited, reserve).1 == Refused(InvalidSeats)
  {
    AfterLastHeld();
    var s := Run(Opening(0), LAST_HELD);
    hide Run;
    MatchingSeatsSelf(LAST);
    assert OwnedHold(s, 0, 0, 1, LAST);
    assert OccupiedSeats(s.reservations, 0) == {};
    OneSeatFits(Seat(2, 4), 4);
  }

  // ---- the maintenance batch makes no difference ----

  // The same, but for holds that ran out and are gone on one side.
  ghost predicate SameButExpired(s: State, t: State) {
    && t == s.(holds := t.holds)
    && (forall h :: h in t.holds ==> h in s.holds && t.holds[h] == s.holds[h])
    && (forall h :: h in s.holds && h !in t.holds ==> s.holds[h].expiresAt <= s.now)
  }

  lemma SweepIsSame(s: State, c: Call)
    requires c.SweepCall?
    ensures SameButExpired(s, Sweep(s, c).0)
  {
  }

  lemma OthersWithout(s: State, t: State, trip: nat, user: nat)
    requires SameButExpired(s, t)
    ensures forall h :: h in Others(t, trip, user) ==> h in Others(s, trip, user) && Others(t, trip, user)[h] == Others(s, trip, user)[h]
    ensures forall h :: h in Others(s, trip, user) && h !in Others(t, trip, user) ==> s.holds[h].trip != trip && h !in t.holds
  {
  }

  lemma SameAnswersToCreate(s: State, t: State, c: Call)
    requires SameButExpired(s, t) && c.CreateCall?
    ensures Create(s, c).1 == Create(t, c).1 && SameButExpired(Create(s, c).0, Create(t, c).0)
  {
    OthersWithout(s, t, c.trip, c.user);
    var a, b := Others(s, c.trip, c.user), Others(t, c.trip, c.user);
    forall seat ensures HeldSeat(a, c.trip, seat) <==> HeldSeat(b, c.trip, seat) {
      if h :| h in a && a[h].trip == c.trip && seat in a[h].seats {
        assert h in b && b[h] == a[h];
      }
      if h :| h in b && b[h].trip == c.trip && seat in b[h].seats {
        assert h in a && b[h] == a[h];
      }
    }
    assert (exists i :: 0 <= i < |c.seats| && HeldSeat(a, c.trip, c.seats[i])) <==> exists i :: 0 <= i < |c.seats| && HeldSeat(b, c.trip, c.seats[i]);
  }

  lemma SameAnswersToReserve(s: State, t: State, c: Call)
    requires SameButExpired(s, t) && c.ReserveCall?
    ensures Reserve(s, c).1 == Reserve(t, c).1 && SameButExpired(Reserve(s, c).0, Reserve(t, c).0)
  {
    assert OwnedHold(s, c.hold, c.trip, c.user, c.seats) <==> OwnedHold(t, c.hold, c.trip, c.user, c.seats);
  }

  lemma SameAnswers(s: State, t: State, c: Call)
    requires SameButExpired(s, t) && !c.SweepCall?
    ensures !c.ReleaseCall? ==> Apply(s, c).1 == Apply(t, c).1
    ensures SameButExpired(Apply(s, c).0, Apply(t, c).0)
  {
    if c.CreateCall? { SameAnswersToCreate(s, t, c); }
    else if c.ReserveCall? { SameAnswersToReserve(s, t, c); }
  }

  lemma SameSeatMap(s: State, t: State, trip: nat, at: int, user: Option<nat>, seat: Seat)
    requires SameButExpired(s, t) && s.now <= at
    ensures Unavailable(s, trip, at, user, seat) <==> Unavailable(t, trip, at, user, seat)
  {
    if h :| h in s.holds && s.holds[h].trip == trip && s.holds[h].expiresAt > at
            && (user.None? || s.holds[h].user != user.value) && seat in s.holds[h].seats {
      assert h in t.holds && t.holds[h] == s.holds[h];
    }
    if h :| h in t.holds && t.holds[h].trip == trip && t.holds[h].expiresAt > at
            && (user.None? || t.holds[h].user != user.value) && seat in t.holds[h].seats {
      assert h in s.holds && t.holds[h] == s.holds[h];
    }
  }

  function WithoutSweeps(calls: seq<Call>): seq<Call> {
    if calls == [] then []
    else if calls[|calls| - 1].SweepCall? then WithoutSweeps(calls[..|calls| - 1])
    else WithoutSweeps(calls[..|calls| - 1]) + [calls[|calls| - 1]]
  }

  lemma {:induction false} SweepsOnlyDropExpired(s: State, calls: seq<Call>)
    ensures SameButExpired(Run(s, WithoutSweeps(calls)), Run(s, calls))
  {
    if calls != [] {
      var before, c := calls[..|calls| - 1], calls[|calls| - 1];
      SweepsOnlyDropExpired(s, before);
      if c.SweepCall? {
        SweepIsSame(Run(s, before), c);
      } else {
        var kept := WithoutSweeps(before);
        assert (kept + [c])[..|kept + [c]| - 1] == kept;
        SameAnswers(Run(s, kept), Run(s, before), c);
      }
    }
  }

  // Over any run: taking every maintenance batch out of it changes no later answer to a create, a booking or a look at
  // the seat map.
  lemma {:induction false} SweepsMakeNoDifference(s: State, calls: seq<Call>, c: Call)
    requires !c.ReleaseCall? && !c.SweepCall?
    ensures Apply(Run(s, calls), c).1 == Apply(Run(s, WithoutSweeps(calls)), c).1
    ensures forall trip: nat, at, user, seat :: Run(s, calls).now <= at ==>
              (Unavailable(Run(s, calls), trip, at, user, seat) <==> Unavailable(Run(s, WithoutSweeps(calls)), trip, at, user, seat))
  {
    var swept, kept := Run(s, calls), Run(s, WithoutSweeps(calls));
    SweepsOnlyDropExpired(s, calls);
    SameAnswers(kept, swept, c);
    forall trip: nat, at, user, seat | swept.now <= at
      ensures Unavailable(swept, trip, at, user, seat) <==> Unavailable(kept, trip, at, user, seat)
    {
      SameSeatMap(kept, swept, trip, at, user, seat);
    }
  }

  // Only releasing can tell: it counts a hold that ran out, unless the batch was there first.
  lemma ReleaseSeesSweepsExactlyWhenExpired(s: State, sweep: Call, c: Call)
    requires sweep.SweepCall? && c.ReleaseCall?
    ensures Release(s, c).1 != Release(Sweep(s, sweep).0, c).1
            <==> c.hold in s.holds && s.holds[c.hold].user == c.user && c.hold in sweep.selected && s.holds[c.hold].expiresAt <= s.now
  {
  }
}

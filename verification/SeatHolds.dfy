// Seats of one operator's bus trips: travellers hold them for ten minutes, a booking turns a hold into a reservation,
// and a maintenance batch clears holds that ran out. Times are milliseconds, service dates are day numbers.

module SeatHolds {
  import opened Common

  // A seat label: rows 1 to 99, columns A to D as 1 to 4.
  datatype Seat = Seat(row: int, column: int)
  datatype Trip = Trip(capacity: int, active: bool, serviceDate: int)
  datatype Hold = Hold(trip: nat, user: nat, seats: seq<Seat>, expiresAt: int)
  datatype Reservation = Reservation(trip: nat, user: nat, seats: seq<Seat>)

  // An operator's edit as it looked: the trip's controls, its highest reserved place and its passengers at that moment.
  datatype Edit = Edit(trip: nat, capacity: int, active: bool, floor: int, passengers: int)
  datatype State = State(now: int, trips: seq<Trip>, holds: map<nat, Hold>, nextHold: nat, reservations: seq<Reservation>,
                         edits: seq<Edit>)

  datatype Call =
    | TickCall(time: int)
    | ScheduleCall(capacity: int, serviceDate: int)
    | LookCall(trip: nat)
    | WriteCall(edit: nat, asked: Option<int>, status: Option<bool>)
    | CreateCall(trip: nat, serviceDate: int, user: nat, seats: seq<Seat>)
    | ReleaseCall(hold: nat, user: nat)
    | ReserveCall(trip: nat, serviceDate: int, user: nat, hold: nat, seats: seq<Seat>, passengers: int)
    | SweepCall(selected: set<nat>)

  datatype Error =
    | InvalidHoldRequest | TripUnavailable | InvalidSeats | SeatUnavailable | SeatHeld
    | HoldInvalid | SoldOut | CapacityBelowReservations | InvalidControls | NoEdit

  datatype Reply =
    | Done | Deleted(count: nat) | HoldReply(hold: nat) | ReservationReply(reservation: nat) | EditReply(edit: nat) | Refused(error: Error)

  const HOLD_MILLISECONDS := 600_000

  // ---- seats ----

  predicate Labelled(seat: Seat) { 1 <= seat.row <= 99 && 1 <= seat.column <= 4 }

  predicate Distinct(seats: seq<Seat>) { forall i, j :: 0 <= i < j < |seats| ==> seats[i] != seats[j] }

  function Place(seat: Seat): int { (seat.row - 1) * 4 + seat.column }

  predicate Fit(seats: seq<Seat>, capacity: int) {
    1 <= capacity <= 80 && forall i :: 0 <= i < |seats| ==> Place(seats[i]) <= capacity
  }

  predicate SetsMatch(first: seq<Seat>, second: seq<Seat>) {
    |first| == |second| && forall i :: 0 <= i < |first| ==> first[i] in second
  }

  predicate ReservedSeat(reservations: seq<Reservation>, trip: nat, seat: Seat) {
    exists r :: 0 <= r < |reservations| && reservations[r].trip == trip && seat in reservations[r].seats
  }

  function OccupiedSeats(reservations: seq<Reservation>, trip: nat): set<Seat> {
    set r, k | 0 <= r < |reservations| && reservations[r].trip == trip && 0 <= k < |reservations[r].seats| :: reservations[r].seats[k]
  }

  predicate HeldSeat(holds: map<nat, Hold>, trip: nat, seat: Seat) {
    exists h :: h in holds && holds[h].trip == trip && seat in holds[h].seats
  }

  // What the seat map shows as taken, to a given traveller or to anyone.
  predicate Unavailable(s: State, trip: nat, at: int, user: Option<nat>, seat: Seat) {
    trip < |s.trips| &&
    (ReservedSeat(s.reservations, trip, seat) ||
     exists h :: h in s.holds && s.holds[h].trip == trip && s.holds[h].expiresAt > at
                 && (user.None? || s.holds[h].user != user.value) && seat in s.holds[h].seats)
  }

  // ---- transactions ----

  function Schedule(s: State, c: Call): (State, Reply)
    requires c.ScheduleCall?
  {
    if c.capacity < 1 || c.capacity > 80 then (s, Refused(InvalidControls))
    else (s.(trips := s.trips + [Trip(c.capacity, true, c.serviceDate)]), Done)
  }

  // ---- the operator's edit: a look, and later a write that goes by it ----

  function Higher(a: int, b: int): int { if a < b then b else a }

  // The highest place of a list of seats, and of the reserved seats of a trip; 0 if there are none.
  function HighestPlace(seats: seq<Seat>): int {
    if seats == [] then 0 else Higher(HighestPlace(seats[..|seats| - 1]), Place(seats[|seats| - 1]))
  }

  function SeatFloor(reservations: seq<Reservation>, trip: nat): int {
    if reservations == [] then 0
    else
      var before, last := SeatFloor(reservations[..|reservations| - 1], trip), reservations[|reservations| - 1];
      if last.trip == trip then Higher(before, HighestPlace(last.seats)) else before
  }

  // A reservation has as many passengers as seats.
  function Passengers(reservations: seq<Reservation>, trip: nat): int {
    if reservations == [] then 0
    else
      Passengers(reservations[..|reservations| - 1], trip)
      + if reservations[|reservations| - 1].trip == trip then |reservations[|reservations| - 1].seats| else 0
  }

  function Look(s: State, c: Call): (State, Reply)
    requires c.LookCall?
  {
    if c.trip >= |s.trips| then (s, Refused(TripUnavailable))
    else
      var t := s.trips[c.trip];
      var edit := Edit(c.trip, t.capacity, t.active, SeatFloor(s.reservations, c.trip), Passengers(s.reservations, c.trip));
      (s.(edits := s.edits + [edit]), EditReply(|s.edits|))
  }

  // Controls that are not given keep the value that was read.
  function WrittenCapacity(s: State, c: Call): int
    requires c.WriteCall? && c.edit < |s.edits|
  {
    if c.asked.Some? then c.asked.value else s.edits[c.edit].capacity
  }

  function Write(s: State, c: Call): (State, Reply)
    requires c.WriteCall?
  {
    if c.edit >= |s.edits| then (s, Refused(NoEdit))
    else
      var e, capacity := s.edits[c.edit], WrittenCapacity(s, c);
      var active := if c.status.Some? then c.status.value else e.active;
      if capacity < 1 || capacity > 80 then (s, Refused(InvalidControls))
      else if capacity < e.passengers || capacity < e.floor then (s, Refused(CapacityBelowReservations))
      else if e.trip >= |s.trips| then (s, Refused(TripUnavailable))
      else (s.(trips := s.trips[e.trip := s.trips[e.trip].(capacity := capacity, active := active)]), Done)
  }

  function WithoutExpired(holds: map<nat, Hold>, trip: nat, now: int): map<nat, Hold> {
    map h | h in holds && !(holds[h].trip == trip && holds[h].expiresAt <= now) :: holds[h]
  }

  function WithoutUser(holds: map<nat, Hold>, trip: nat, user: nat): map<nat, Hold> {
    map h | h in holds && !(holds[h].trip == trip && holds[h].user == user) :: holds[h]
  }

  // The holds left for a traveller to compete with.
  function Others(s: State, trip: nat, user: nat): map<nat, Hold> {
    WithoutUser(WithoutExpired(s.holds, trip, s.now), trip, user)
  }

  function Create(s: State, c: Call): (State, Reply)
    requires c.CreateCall?
  {
    if !Distinct(c.seats) || exists i :: 0 <= i < |c.seats| && !Labelled(c.seats[i]) then (s, Refused(InvalidHoldRequest))
    else if c.trip >= |s.trips| || !s.trips[c.trip].active || s.trips[c.trip].serviceDate != c.serviceDate then (s, Refused(TripUnavailable))
    else if |c.seats| < 1 || |c.seats| > 6 || !Fit(c.seats, s.trips[c.trip].capacity) then (s, Refused(InvalidSeats))
    else if exists i :: 0 <= i < |c.seats| && ReservedSeat(s.reservations, c.trip, c.seats[i]) then (s, Refused(SeatUnavailable))
    else if exists i :: 0 <= i < |c.seats| && HeldSeat(Others(s, c.trip, c.user), c.trip, c.seats[i]) then (s, Refused(SeatHeld))
    else
      (s.(holds := Others(s, c.trip, c.user)[s.nextHold := Hold(c.trip, c.user, c.seats, s.now + HOLD_MILLISECONDS)],
          nextHold := s.nextHold + 1),
       HoldReply(s.nextHold))
  }

  function Release(s: State, c: Call): (State, Reply)
    requires c.ReleaseCall?
  {
    if c.hold in s.holds && s.holds[c.hold].user == c.user then (s.(holds := s.holds - {c.hold}), Deleted(1))
    else (s, Deleted(0))
  }

  // The booking step: the hold is the traveller's, still running and for exactly these seats.
  predicate OwnedHold(s: State, hold: nat, trip: nat, user: nat, seats: seq<Seat>) {
    && hold in s.holds && s.holds[hold].trip == trip && s.holds[hold].user == user
    && s.holds[hold].expiresAt > s.now && SetsMatch(s.holds[hold].seats, seats)
  }

  function Reserve(s: State, c: Call): (State, Reply)
    requires c.ReserveCall?
  {
    if c.trip >= |s.trips| || !s.trips[c.trip].active || s.trips[c.trip].serviceDate != c.serviceDate then (s, Refused(TripUnavailable))
    else if !OwnedHold(s, c.hold, c.trip, c.user, c.seats) then (s, Refused(HoldInvalid))
    else if |c.seats| != c.passengers || !Distinct(c.seats) || !Fit(c.seats, s.trips[c.trip].capacity) then (s, Refused(InvalidSeats))
    else if exists i :: 0 <= i < |c.seats| && ReservedSeat(s.reservations, c.trip, c.seats[i]) then (s, Refused(SeatUnavailable))
    else if |OccupiedSeats(s.reservations, c.trip)| + c.passengers > s.trips[c.trip].capacity then (s, Refused(SoldOut))
    else
      (s.(reservations := s.reservations + [Reservation(c.trip, c.user, c.seats)], holds := s.holds - {c.hold}),
       ReservationReply(|s.reservations|))
  }

  function RanOut(s: State, selected: set<nat>): set<nat> {
    set h | h in s.holds && h in selected && s.holds[h].expiresAt <= s.now
  }

  // The maintenance batch: of the holds it selected, those that ran out go.
  function Sweep(s: State, c: Call): (State, Reply)
    requires c.SweepCall?
  {
    (s.(holds := s.holds - RanOut(s, c.selected)), Deleted(|RanOut(s, c.selected)|))
  }

  function Apply(s: State, c: Call): (State, Reply) {
    if c.TickCall? then (s.(now := if c.time > s.now then c.time else s.now), Done)
    else if c.ScheduleCall? then Schedule(s, c)
    else if c.LookCall? then Look(s, c)
    else if c.WriteCall? then Write(s, c)
    else if c.CreateCall? then Create(s, c)
    else if c.ReleaseCall? then Release(s, c)
    else if c.ReserveCall? then Reserve(s, c)
    else Sweep(s, c)
  }

  function Run(s: State, calls: seq<Call>): State {
    if calls == [] then s else Apply(Run(s, calls[..|calls| - 1]), calls[|calls| - 1]).0
  }

  function Opening(now: int): State { State(now, [], map[], 0, [], []) }
}

// Finding the instant at which a hotel's wall clock shows a given time, by two corrections. Instants and wall clocks are
// whole minutes; a zone gives the offset of its wall clock at every instant.

module LocalTime {
  import opened Common

  type Zone = int -> int

  function Shows(zone: Zone, instant: int): int { instant + zone(instant) }

  // Two corrections from the wall clock itself.
  function Solve(zone: Zone, local: int): int { local - zone(local - zone(local)) }

  // Some instant shows this wall clock.
  ghost predicate Occurs(zone: Zone, local: int) { exists instant :: Shows(zone, instant) == local }

  // Within reach of this wall clock the offset changes at most once, from a to b.
  ghost predicate OneTransition(zone: Zone, local: int, reach: nat, at: int, a: int, b: int) {
    && (forall instant :: 0 - reach <= zone(instant) <= reach)
    && (forall instant :: local - reach <= instant <= local + reach ==> zone(instant) == if instant < at then a else b)
  }

  // The loop of the service. None stands for a date, time or zone that could not be read.
  method LocalDateTimeToUtc(wallClock: Option<int>, zone: Option<Zone>) returns (instant: Option<int>)
    ensures instant == if wallClock.None? || zone.None? then None else Some(Solve(zone.value, wallClock.value))
  {
    if wallClock.None? || zone.None? {
      return None;
    }
    var local := wallClock.value;
    var candidate := local;
    for pass := 0 to 2
      invariant candidate == if pass == 0 then local else if pass == 1 then local - zone.value(local) else Solve(zone.value, local)
    {
      var rendered := Shows(zone.value, candidate);
      candidate := candidate + local - rendered;
    }
    return Some(candidate);
  }

  // With one transition in reach, the result shows the wall clock whenever any instant does.
  lemma SolvedWheneverItOccurs(zone: Zone, local: int, reach: nat, at: int, a: int, b: int)
    requires OneTransition(zone, local, reach, at, a, b)
    ensures Shows(zone, Solve(zone, local)) == local <==> Occurs(zone, local)
  {
    var first := local - zone(local);
    assert local - reach <= first <= local + reach;
    var second := Solve(zone, local);
    assert local - reach <= second <= local + reach;
    if Occurs(zone, local) {
      var instant :| Shows(zone, instant) == local;
      assert local - reach <= instant <= local + reach;
    } else {
      assert Shows(zone, second) != local;
    }
  }

  // Which instant it is. A wall clock that occurs twice gives the first of the two if it lies before the transition's own
  // wall-clock reading in UTC, the second otherwise; one that is skipped is missed by the size of the skip, to the early
  // side if it lies before it, to the late side otherwise.
  lemma SolvedInstant(zone: Zone, local: int, reach: nat, at: int, a: int, b: int)
    requires OneTransition(zone, local, reach, at, a, b)
    ensures var result := Solve(zone, local);
            var before, after := local - a < at, local - b >= at;
            && (before && after ==> result == if local < at then local - a else local - b)
            && (before && !after ==> result == local - a)
            && (!before && after ==> result == local - b)
            && (!before && !after ==> Shows(zone, result) == if local < at then local - (b - a) else local + (b - a))
  {
    assert local - reach <= local - zone(local) <= local + reach;
    var second := Solve(zone, local);
    assert local - reach <= second <= local + reach;
  }

  // ---- two transitions in reach ----

  // Within reach of this wall clock the offset changes twice: from a to b at the first, from b to c at the second.
  ghost predicate TwoTransitions(zone: Zone, local: int, reach: nat, first: int, second: int, a: int, b: int, c: int) {
    && local - reach < first < second <= local + reach && a != b && b != c
    && (forall instant :: 0 - reach <= zone(instant) <= reach)
    && (forall instant :: local - reach <= instant <= local + reach ==>
          zone(instant) == if instant < first then a else if instant < second then b else c)
  }

  // The wall clock falls, as it is read in UTC, before, between or after the transitions; the first correction jumps
  // over one or both of them to a period whose offset does not reach the wall clock, while that of the third period does.
  predicate Missed(local: int, first: int, second: int, a: int, b: int, c: int) {
    var occursA, occursB, occursC := local - a < first, first <= local - b < second, local - c >= second;
    if local < first then
      (first <= local - a < second && !occursB && occursC) || (local - a >= second && !occursC && occursB)
    else if local < second then
      a != c && ((local - b < first && !occursA && occursC) || (local - b >= second && !occursC && occursA))
    else
      (first <= local - c < second && !occursB && occursA) || (local - c < first && !occursA && occursB)
  }

  lemma InReach(zone: Zone, local: int, reach: nat)
    requires forall instant :: 0 - reach <= zone(instant) <= reach
    ensures local - reach <= local - zone(local) <= local + reach
    ensures local - reach <= Solve(zone, local) <= local + reach
    ensures forall instant :: Shows(zone, instant) == local ==> local - reach <= instant <= local + reach
  {
  }

  // With two transitions in reach the result shows the wall clock exactly when it occurs and is not missed.
  lemma SolvedExactlyUnlessMissed(zone: Zone, local: int, reach: nat, first: int, second: int, a: int, b: int, c: int)
    requires TwoTransitions(zone, local, reach, first, second, a, b, c)
    ensures Shows(zone, Solve(zone, local)) == local <==> Occurs(zone, local) && !Missed(local, first, second, a, b, c)
    ensures Missed(local, first, second, a, b, c) ==> Occurs(zone, local)
  {
    InReach(zone, local, reach);
    OccursInAPeriod(zone, local, reach, first, second, a, b, c);
    assert Shows(zone, Solve(zone, local)) == local ==> Occurs(zone, local);
  }

  lemma OccursInAPeriod(zone: Zone, local: int, reach: nat, first: int, second: int, a: int, b: int, c: int)
    requires TwoTransitions(zone, local, reach, first, second, a, b, c)
    ensures Occurs(zone, local) <==> local - a < first || first <= local - b < second || local - c >= second
  {
    InReach(zone, local, reach);
    if Occurs(zone, local) {
      var instant :| Shows(zone, instant) == local;
      assert local - reach <= instant <= local + reach;
    }
    Periods(zone, local, reach, first, second, a, b, c);
  }

  // An offset that reaches the wall clock from within its own period gives an instant that shows it.
  lemma Periods(zone: Zone, local: int, reach: nat, first: int, second: int, a: int, b: int, c: int)
    requires TwoTransitions(zone, local, reach, first, second, a, b, c)
    ensures local - a < first || first <= local - b < second || local - c >= second ==> Occurs(zone, local)
  {
    assert zone(local - reach) == a && zone(first) == b && zone(second) == c;
    if local - a < first {
      assert Shows(zone, local - a) == local;
    } else if first <= local - b < second {
      assert Shows(zone, local - b) == local;
    } else if local - c >= second {
      assert Shows(zone, local - c) == local;
    }
  }

  // Transitions at least as far apart as the outer offsets are from UTC, and as the middle offset is above the last or
  // below the first, are never missed.
  lemma FarApartTransitionsAreNeverMissed(local: int, first: int, second: int, a: int, b: int, c: int)
    requires second - first >= a && second - first >= -a && second - first >= c && second - first >= -c
    requires second - first >= b - c && second - first >= a - b
    ensures !Missed(local, first, second, a, b, c)
  {
  }

  // So with two transitions in reach that are this far apart the result is right exactly when there is one.
  lemma SolvedBetweenFarApartTransitions(zone: Zone, local: int, reach: nat, first: int, second: int, a: int, b: int, c: int)
    requires TwoTransitions(zone, local, reach, first, second, a, b, c)
    requires second - first >= a && second - first >= -a && second - first >= c && second - first >= -c
    requires second - first >= b - c && second - first >= a - b
    ensures Shows(zone, Solve(zone, local)) == local <==> Occurs(zone, local)
  {
    hide Solve, Occurs, TwoTransitions;
    FarApartTransitionsAreNeverMissed(local, first, second, a, b, c);
    SolvedExactlyUnlessMissed(zone, local, reach, first, second, a, b, c);
  }

  // A zone with exactly two transitions, minutes apart, in which the wall clock occurs and is missed: no clock is changed
  // like this, which is why the next theorem bounds how close changes may come.
  function MissingZone(): Zone { (instant: int) => if instant < 1 then -2 else if instant < 4 then 0 else -5 }

  lemma TwoTransitionsMayMiss()
    ensures TwoTransitions(MissingZone(), 0, 5, 1, 4, -2, 0, -5) && Missed(0, 1, 4, -2, 0, -5)
    ensures Shows(MissingZone(), 5) == 0 && Solve(MissingZone(), 0) == 0 && Shows(MissingZone(), 0) == -2
  {
  }

  // ---- zones whose clock is changed seldom ----

  ghost predicate ChangesAt(zone: Zone, instant: int) { zone(instant - 1) != zone(instant) }

  ghost predicate Spaced(zone: Zone, gap: int) {
    forall x, y :: x < y && ChangesAt(zone, x) && ChangesAt(zone, y) ==> y - x >= gap
  }

  lemma {:induction false} SameWithoutChange(zone: Zone, x: int, y: int)
    requires x <= y && forall i :: x < i <= y ==> !ChangesAt(zone, i)
    ensures zone(x) == zone(y)
    decreases y - x
  {
    if x < y {
      assert !ChangesAt(zone, y);
      SameWithoutChange(zone, x, y - 1);
    }
  }

  lemma OneChangeInReach(zone: Zone, local: int, reach: nat) returns (at: int)
    requires (forall instant :: 0 - reach <= zone(instant) <= reach) && Spaced(zone, 2 * reach)
    ensures OneTransition(zone, local, reach, at, zone(local - reach), zone(local + reach))
  {
    hide ChangesAt;
    var low, high := local - reach, local + reach;
    if x :| low < x <= high && ChangesAt(zone, x) {
      at := x;
      forall instant | low <= instant <= high ensures zone(instant) == if instant < at then zone(low) else zone(high) {
        if instant < at {
          SameWithoutChange(zone, low, instant);
        } else {
          SameWithoutChange(zone, instant, high);
        }
      }
    } else {
      at := low;
      forall instant | low <= instant <= high ensures zone(instant) == zone(high) {
        SameWithoutChange(zone, instant, high);
      }
    }
  }

  // In every zone whose clock is not changed twice within twice its greatest offset (28 hours, for offsets of up to 14),
  // whatever the time: the result shows the wall clock exactly when some instant does.
  lemma SolvedInEveryRealZone(zone: Zone, local: int, reach: nat)
    requires (forall instant :: 0 - reach <= zone(instant) <= reach) && Spaced(zone, 2 * reach)
    ensures Shows(zone, Solve(zone, local)) == local <==> Occurs(zone, local)
  {
    var at := OneChangeInReach(zone, local, reach);
    SolvedWheneverItOccurs(zone, local, reach, at, zone(local - reach), zone(local + reach));
  }

  // ---- refund eligibility ----

  const MINUTES_PER_HOUR := 60

  function RefundEligible(refundable: bool, wallClock: Option<int>, zone: Option<Zone>, cutoffHours: Option<int>, now: int): bool {
    && refundable && wallClock.Some? && zone.Some? && cutoffHours.Some?
    && now < Solve(zone.value, wallClock.value) - cutoffHours.value * MINUTES_PER_HOUR
  }

  // For a check-in that occurs once, eligibility is exactly a refundable rate more than the cutoff before it.
  lemma EligibleExactlyBeforeCutoff(refundable: bool, zone: Zone, local: int, reach: nat, at: int, a: int, b: int, checkIn: int,
                                    cutoff: int, now: int)
    requires OneTransition(zone, local, reach, at, a, b)
    requires forall instant :: Shows(zone, instant) == local <==> instant == checkIn
    ensures RefundEligible(refundable, Some(local), Some(zone), Some(cutoff), now) <==> refundable && now + 60 * cutoff < checkIn
  {
    assert Shows(zone, checkIn) == local;
    SolvedWheneverItOccurs(zone, local, reach, at, a, b);
  }

  // A rate without a check-in, a known zone or a cutoff is never refunded.
  lemma UnknownCheckInIsNotEligible(refundable: bool, wallClock: Option<int>, zone: Option<Zone>, cutoffHours: Option<int>, now: int)
    requires wallClock == None || zone == None || cutoffHours == None
    ensures !RefundEligible(refundable, wallClock, zone, cutoffHours, now)
  {
  }
}

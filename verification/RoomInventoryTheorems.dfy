// Every converted lock has exactly one owner, however confirmations interleave.

module RoomInventoryTheorems {
  import opened Common
  import opened Sums
  import opened RoomInventory

  // ---- who owns a converted lock ----

  predicate InFlight(f: Flight) { f.phase in {Holding, Failed} }

  ghost predicate HeldBy(s: Desk, l: nat, f: nat) {
    f < |s.flights| && InFlight(s.flights[f]) && s.flights[f].lock == l
  }

  ghost predicate BookedBy(s: Desk, l: nat, b: nat) {
    b < |s.bookings| && s.bookings[b].confirmed && s.bookings[b].lock == l
  }

  ghost predicate Owned(s: Desk, l: nat) {
    (exists f :: HeldBy(s, l, f)) || (exists b :: BookedBy(s, l, b))
  }

  ghost predicate OwnersOk(s: Desk) {
    && (forall f :: 0 <= f < |s.flights| ==> s.flights[f].lock < |s.locks|)
    && (forall b :: 0 <= b < |s.bookings| ==> s.bookings[b].lock < |s.locks|)
    && (forall l: nat :: l < |s.locks| ==> (s.locks[l].status == Converted <==> Owned(s, l)))
    && (forall f, g :: 0 <= f < g < |s.flights| && InFlight(s.flights[f]) && InFlight(s.flights[g]) ==>
          s.flights[f].lock != s.flights[g].lock)
    && (forall f, b :: 0 <= f < |s.flights| && InFlight(s.flights[f]) && 0 <= b < |s.bookings| ==>
          s.flights[f].lock != s.bookings[b].lock)
    && (forall a, b :: 0 <= a < b < |s.bookings| ==> s.bookings[a].lock != s.bookings[b].lock)
    && (forall a, b :: 0 <= a < b < |s.bookings| ==> s.bookings[a].key != s.bookings[b].key)
    && (forall b :: 0 <= b < |s.bookings| && !s.bookings[b].confirmed ==> s.locks[s.bookings[b].lock].status == RoomInventory.Released)
  }

  ghost predicate RoomsOk(s: Desk) {
    forall l :: 0 <= l < |s.locks| ==> s.locks[l].room < |s.capacity|
  }

  // What was read was free, under a limit no higher than the rooms there are.
  ghost predicate DraftOk(s: Desk, d: Draft) {
    d.room < |s.capacity| && d.rooms >= 1 && d.checkIn < d.checkOut && d.reserved + d.rooms <= d.limit <= s.capacity[d.room]
  }

  // The lock that an approval is to move.
  ghost predicate Amends(s: Desk, p: Approval, id: nat) {
    && p.amendment < |s.amendments| && s.amendments[p.amendment].booking < |s.bookings|
    && s.bookings[s.amendments[p.amendment].booking].lock == id < |s.locks|
  }

  ghost predicate ApprovalOk(s: Desk, p: Approval) {
    && p.amendment < |s.amendments| && s.amendments[p.amendment].booking < |s.bookings|
    && var id := s.bookings[s.amendments[p.amendment].booking].lock;
       id < |s.locks| && s.locks[id].room < |s.capacity| && p.reserved + s.locks[id].quantity <= p.limit <= s.capacity[s.locks[id].room]
  }

  ghost predicate ReadingsOk(s: Desk) {
    && (forall d :: 0 <= d < |s.drafts| ==> DraftOk(s, s.drafts[d]))
    && (forall p :: 0 <= p < |s.approvals| ==> ApprovalOk(s, s.approvals[p]))
  }

  ghost predicate Inv(s: Desk) {
    OwnersOk(s) && RoomsOk(s) && ReadingsOk(s)
  }

  // Owners do not change when every lock keeps being converted or not.
  lemma SameOwners(s: Desk, s': Desk)
    requires OwnersOk(s) && s'.flights == s.flights && s'.bookings == s.bookings && |s.locks| <= |s'.locks|
    requires forall l :: 0 <= l < |s.locks| ==>
               && (s'.locks[l].status == Converted <==> s.locks[l].status == Converted)
               && (s.locks[l].status == RoomInventory.Released ==> s'.locks[l].status == RoomInventory.Released)
    requires forall l :: |s.locks| <= l < |s'.locks| ==> s'.locks[l].status != Converted
    ensures OwnersOk(s')
  {
    forall l: nat | l < |s'.locks| ensures s'.locks[l].status == Converted <==> Owned(s', l) {
      if l < |s.locks| {
        assert Owned(s, l) <==> Owned(s', l) by {
          assert forall f :: HeldBy(s, l, f) <==> HeldBy(s', l, f);
          assert forall b :: BookedBy(s, l, b) <==> BookedBy(s', l, b);
        }
      }
    }
  }

  lemma ConvertKeepsOwners(s: Desk, c: Call)
    requires OwnersOk(s) && c.ConvertCall?
    ensures OwnersOk(Convert(s, c).0)
  {
    var s' := Convert(s, c).0;
    if s' != s {
      assert !Owned(s, c.lock);
      forall f | 0 <= f < |s.flights| && InFlight(s.flights[f]) ensures s.flights[f].lock != c.lock {
        assert !HeldBy(s, c.lock, f);
      }
      forall b | 0 <= b < |s.bookings| ensures s.bookings[b].lock != c.lock {
        assert !BookedBy(s, c.lock, b);
      }
      forall l: nat | l < |s'.locks| ensures s'.locks[l].status == Converted <==> Owned(s', l) {
        if l == c.lock {
          assert HeldBy(s', l, |s.flights|);
        } else {
          assert forall f :: HeldBy(s, l, f) <==> HeldBy(s', l, f);
          assert forall b :: BookedBy(s, l, b) <==> BookedBy(s', l, b);
        }
      }
    }
  }

  lemma SaveKeepsOtherOwners(s: Desk, c: Call, l: nat)
    requires c.SaveCall? && c.flight < |s.flights| && s.flights[c.flight].lock != l
    ensures Owned(s, l) <==> Owned(Save(s, c).0, l)
  {
    var s' := Save(s, c).0;
    assert forall g :: HeldBy(s, l, g) <==> HeldBy(s', l, g);
    assert forall b :: BookedBy(s, l, b) <==> BookedBy(s', l, b);
  }

  lemma SaveKeepsOwners(s: Desk, c: Call)
    requires OwnersOk(s) && c.SaveCall?
    ensures OwnersOk(Save(s, c).0)
  {
    var s' := Save(s, c).0;
    if s' != s {
      var f := s.flights[c.flight];
      var saved := |s'.bookings| > |s.bookings|;
      forall l: nat | l < |s'.locks| ensures s'.locks[l].status == Converted <==> Owned(s', l) {
        if l == f.lock {
          assert HeldBy(s, l, c.flight);
          if saved {
            assert BookedBy(s', l, |s.bookings|);
          } else {
            assert HeldBy(s', l, c.flight);
          }
        } else {
          SaveKeepsOtherOwners(s, c, l);
        }
      }
    }
  }

  lemma ReleaseKeepsOwners(s: Desk, c: Call)
    requires OwnersOk(s) && c.ReleaseCall?
    ensures OwnersOk(Release(s, c).0)
  {
    var s' := Release(s, c).0;
    if s' != s {
      var f := s.flights[c.flight];
      assert HeldBy(s, f.lock, c.flight);
      forall l: nat | l < |s'.locks| ensures s'.locks[l].status == Converted <==> Owned(s', l) {
        if l == f.lock {
          assert forall g: nat :: !HeldBy(s', l, g);
          assert forall b: nat :: !BookedBy(s', l, b);
        } else {
          assert forall g :: HeldBy(s, l, g) <==> HeldBy(s', l, g);
          assert forall b :: BookedBy(s, l, b) <==> BookedBy(s', l, b);
        }
      }
    }
  }

  lemma CancelKeepsOwners(s: Desk, c: Call)
    requires OwnersOk(s) && c.CancelCall?
    ensures OwnersOk(Cancel(s, c).0)
  {
    var s' := Cancel(s, c).0;
    if s' != s {
      var lock := s.bookings[c.booking].lock;
      forall l: nat | l < |s'.locks| ensures s'.locks[l].status == Converted <==> Owned(s', l) {
        if l == lock {
          assert forall f :: !HeldBy(s', l, f);
          assert forall b :: !BookedBy(s', l, b);
        } else {
          assert forall f :: HeldBy(s, l, f) <==> HeldBy(s', l, f);
          assert forall b :: BookedBy(s, l, b) <==> BookedBy(s', l, b);
        }
      }
    }
  }

  lemma ApplyKeepsOwners(s: Desk, c: Call)
    requires OwnersOk(s)
    ensures OwnersOk(Apply(s, c).0)
  {
    hide OwnersOk;
    var s' := Apply(s, c).0;
    if c.ConvertCall? { ConvertKeepsOwners(s, c); }
    else if c.SaveCall? { SaveKeepsOwners(s, c); }
    else if c.ReleaseCall? { ReleaseKeepsOwners(s, c); }
    else if c.CancelCall? { CancelKeepsOwners(s, c); }
    else { SameOwners(s, s'); }
  }

  // ---- what was read ----

  // Locks keep their room and quantity, bookings their lock, amendments their booking.
  lemma ApplyKeepsRows(s: Desk, c: Call)
    ensures var s' := Apply(s, c).0;
            && s'.capacity == s.capacity && |s.locks| <= |s'.locks| && |s.bookings| <= |s'.bookings| && |s.amendments| <= |s'.amendments|
            && (forall l :: 0 <= l < |s.locks| ==> s'.locks[l].room == s.locks[l].room && s'.locks[l].quantity == s.locks[l].quantity)
            && (forall b :: 0 <= b < |s.bookings| ==> s'.bookings[b].lock == s.bookings[b].lock)
            && (forall a :: 0 <= a < |s.amendments| ==> s'.amendments[a].booking == s.amendments[a].booking
                                                        && s'.amendments[a].checkIn == s.amendments[a].checkIn
                                                        && s'.amendments[a].checkOut == s.amendments[a].checkOut)
  {
    hide Reserved, StayLimit, Clashes, HasPending, OverrideRange;
  }

  lemma ApplyKeepsRooms(s: Desk, c: Call)
    requires RoomsOk(s) && ReadingsOk(s)
    ensures RoomsOk(Apply(s, c).0)
  {
    if c.HoldCall? && c.draft < |s.drafts| {
      assert DraftOk(s, s.drafts[c.draft]);
    }
  }

  lemma LimitedAtMost(limit: int, other: Option<nat>)
    ensures Limited(limit, other) <= limit
    ensures other.Some? ==> Limited(limit, other) <= other.value
  {
  }

  lemma LookIsOk(s: Desk, c: Call)
    requires c.LookCall? && Look(s, c).1.DraftReply?
    ensures var d := Look(s, c).0.drafts[|s.drafts|]; DraftOk(s, d) && Look(s, c).0.drafts == s.drafts + [d]
  {
    LimitedAtMost(s.capacity[c.room], StayLimit(s.overrides, c.room, c.checkIn, c.checkOut));
  }

  lemma ReviewIsOk(s: Desk, c: Call)
    requires c.ReviewCall? && ReviewChange(s, c).1.ApprovalReply?
    ensures var p := ReviewChange(s, c).0.approvals[|s.approvals|]; ApprovalOk(s, p) && ReviewChange(s, c).0.approvals == s.approvals + [p]
  {
    hide Reserved, StayLimit, Swept;
    var a := s.amendments[c.amendment];
    LimitedAtMost(s.capacity[s.locks[s.bookings[a.booking].lock].room],
                  StayLimit(s.overrides, s.locks[s.bookings[a.booking].lock].room, a.checkIn, a.checkOut));
  }

  // Readings are only added, and an approval only becomes checked.
  lemma ApplyKeepsReadingRows(s: Desk, c: Call)
    ensures var s' := Apply(s, c).0;
            && s.drafts <= s'.drafts && |s.approvals| <= |s'.approvals|
            && (forall p :: 0 <= p < |s.approvals| ==> s'.approvals[p] == s.approvals[p].(checked := s'.approvals[p].checked))
            && (|s'.drafts| > |s.drafts| ==> c.LookCall? && Look(s, c).1.DraftReply?)
            && (|s'.approvals| > |s.approvals| ==> c.ReviewCall? && ReviewChange(s, c).1.ApprovalReply?)
  {
  }

  lemma ApplyKeepsReadings(s: Desk, c: Call)
    requires ReadingsOk(s)
    ensures ReadingsOk(Apply(s, c).0)
  {
    ApplyKeepsRows(s, c);
    ApplyKeepsReadingRows(s, c);
    var s' := Apply(s, c).0;
    if |s'.drafts| > |s.drafts| {
      LookIsOk(s, c);
    }
    if |s'.approvals| > |s.approvals| {
      ReviewIsOk(s, c);
    }
    hide Apply;
    forall d | 0 <= d < |s'.drafts| ensures DraftOk(s', s'.drafts[d]) {
      if d < |s.drafts| {
        assert DraftOk(s, s.drafts[d]) && s'.drafts[d] == s.drafts[d];
      }
    }
    forall p | 0 <= p < |s'.approvals| ensures ApprovalOk(s', s'.approvals[p]) {
      if p < |s.approvals| {
        assert ApprovalOk(s, s.approvals[p]);
      }
    }
  }

  lemma ApplyKeepsInv(s: Desk, c: Call)
    requires Inv(s)
    ensures Inv(Apply(s, c).0) && Apply(s, c).0.capacity == s.capacity
  {
    hide Apply;
    ApplyKeepsOwners(s, c);
    ApplyKeepsRows(s, c);
    ApplyKeepsRooms(s, c);
    ApplyKeepsReadings(s, c);
  }

  lemma OpeningInv(capacity: seq<nat>, now: int)
    ensures Inv(Opening(capacity, now))
  {
  }

  lemma {:induction false} RunKeepsInv(capacity: seq<nat>, now: int, calls: seq<Call>)
    ensures Inv(Run(Opening(capacity, now), calls))
    ensures Run(Opening(capacity, now), calls).capacity == capacity
  {
    hide Apply, Inv;
    var s0 := Opening(capacity, now);
    if calls == [] {
      OpeningInv(capacity, now);
    } else {
      var before := Run(s0, calls[..|calls| - 1]);
      var c := calls[|calls| - 1];
      RunKeepsInv(capacity, now, calls[..|calls| - 1]);
      ApplyKeepsInv(before, c);
    }
  }

  // Each converted lock has exactly one owner: one confirmation in flight or one confirmed booking, never both.
  lemma {:induction false} ConvertedLocksHaveOneOwner(capacity: seq<nat>, now: int, calls: seq<Call>, l: nat)
    requires l < |Run(Opening(capacity, now), calls).locks|
    ensures var s := Run(Opening(capacity, now), calls);
            && (s.locks[l].status == Converted <==> (exists f :: HeldBy(s, l, f)) || (exists b :: BookedBy(s, l, b)))
            && (forall f, g :: HeldBy(s, l, f) && HeldBy(s, l, g) ==> f == g)
            && (forall a, b :: BookedBy(s, l, a) && BookedBy(s, l, b) ==> a == b)
            && (forall f, b :: HeldBy(s, l, f) ==> !BookedBy(s, l, b))
  {
    RunKeepsInv(capacity, now, calls);
    assert OwnersOk(Run(Opening(capacity, now), calls));
  }

  // No two bookings, cancelled ones included, ever share a lock; a confirmed one holds its lock, a cancelled one gave it back.
  lemma {:induction false} BookingsNeverShareALock(capacity: seq<nat>, now: int, calls: seq<Call>, a: nat, b: nat)
    requires var s := Run(Opening(capacity, now), calls); a < |s.bookings| && b < |s.bookings| && a != b
    ensures var s := Run(Opening(capacity, now), calls);
            && s.bookings[a].lock != s.bookings[b].lock && s.bookings[a].lock < |s.locks|
            && s.locks[s.bookings[a].lock].status == if s.bookings[a].confirmed then Converted else RoomInventory.Released
  {
    RunKeepsInv(capacity, now, calls);
    var s := Run(Opening(capacity, now), calls);
    assert OwnersOk(s);
    if s.bookings[a].confirmed {
      assert BookedBy(s, s.bookings[a].lock, a);
    }
  }

  // A hold that ran out before it was confirmed, or a lock that was given back, is never confirmed again.
  ghost predicate Gone(s: Desk, l: nat) {
    l < |s.locks|
    && (s.locks[l].status == RoomInventory.Released || (s.locks[l].status != Converted && s.locks[l].expiresAt <= s.now))
  }

  lemma ApplyKeepsGone(s: Desk, c: Call, l: nat)
    requires Gone(s, l)
    ensures Gone(Apply(s, c).0, l)
    ensures s.locks[l].status == RoomInventory.Released ==> Apply(s, c).0.locks[l].status == RoomInventory.Released
  {
  }

  lemma {:induction false} GoneIsFinal(s: Desk, calls: seq<Call>, l: nat)
    requires Gone(s, l)
    ensures Gone(Run(s, calls), l) && Run(s, calls).locks[l].status != Converted
    ensures s.locks[l].status == RoomInventory.Released ==> Run(s, calls).locks[l].status == RoomInventory.Released
  {
    if calls != [] {
      GoneIsFinal(s, calls[..|calls| - 1], l);
      ApplyKeepsGone(Run(s, calls[..|calls| - 1]), calls[|calls| - 1], l);
    }
  }

  // ---- a confirmation that failed ----

  // A lock that nobody owns and nobody was refused for good: active, or expired after its time.
  ghost predicate Given(s: Desk, l: nat, expiresAt: int) {
    && l < |s.locks| && s.locks[l].expiresAt == expiresAt
    && (s.locks[l].status == Active || (s.locks[l].status == Expired && expiresAt <= s.now))
  }

  // After an accepted release the lock is active exactly while its expiry is ahead, and expired otherwise; nothing else of
  // it, and no other lock, has changed.
  lemma ReleasesGiveTheLockBack(s: Desk, c: Call)
    requires Inv(s) && c.ReleaseCall? && Apply(s, c).1 == Done
    ensures c.flight < |s.flights| && s.flights[c.flight].lock < |s.locks|
    ensures var s', l := Apply(s, c).0, s.flights[c.flight].lock;
            && s'.now == s.now && |s'.locks| == |s.locks|
            && s.locks[l].status == Converted
            && s'.locks[l] == s.locks[l].(status := s'.locks[l].status)
            && (s'.locks[l].status == Active <==> s.now < s.locks[l].expiresAt)
            && (s'.locks[l].status == Expired <==> s.locks[l].expiresAt <= s.now)
            && forall k :: 0 <= k < |s.locks| && k != l ==> s'.locks[k] == s.locks[k]
  {
    assert HeldBy(s, s.flights[c.flight].lock, c.flight);
  }

  lemma GivenStays(s: Desk, c: Call, l: nat, expiresAt: int)
    requires Inv(s) && Given(s, l, expiresAt) && !(c.ConvertCall? && c.lock == l)
    ensures Given(Apply(s, c).0, l, expiresAt)
  {
    hide RoomsOk, ReadingsOk, Reserved, StayLimit;
    forall f | 0 <= f < |s.flights| && InFlight(s.flights[f]) ensures s.flights[f].lock != l {
      assert !HeldBy(s, l, f);
    }
    forall b | 0 <= b < |s.bookings| ensures s.bookings[b].lock != l {
      assert !BookedBy(s, l, b);
    }
  }

  lemma {:induction false} GivenStaysOver(s: Desk, calls: seq<Call>, l: nat, expiresAt: int)
    requires Inv(s) && Given(s, l, expiresAt)
    requires forall k :: 0 <= k < |calls| ==> !(calls[k].ConvertCall? && calls[k].lock == l)
    ensures Inv(Run(s, calls)) && Given(Run(s, calls), l, expiresAt)
  {
    hide Apply, Inv, Given;
    if calls != [] {
      var before := Run(s, calls[..|calls| - 1]);
      GivenStaysOver(s, calls[..|calls| - 1], l, expiresAt);
      GivenStays(before, calls[|calls| - 1], l, expiresAt);
      ApplyKeepsInv(before, calls[|calls| - 1]);
    }
  }

  // A confirmation holds a lock, its booking cannot be saved, and the lock is released. Whatever follows, until somebody
  // else confirms it the same lock can be confirmed again exactly while the clock is before the expiry it always had.
  lemma {:induction false} FailedSavesCanBeTriedAgain(s: Desk, flight: nat, calls: seq<Call>, key: string)
    requires Inv(s) && flight < |s.flights| && s.flights[flight].phase == Holding
    requires forall k :: 0 <= k < |calls| ==> !(calls[k].ConvertCall? && calls[k].lock == s.flights[flight].lock)
    ensures var l := s.flights[flight].lock;
            var failed := Apply(s, SaveCall(flight, false)).0;
            var (released, reply) := Apply(failed, ReleaseCall(flight));
            var later := Run(released, calls);
            && l < |s.locks| && reply == Done
            && (Apply(later, ConvertCall(l, key)).1.FlightReply? <==> later.now < s.locks[l].expiresAt)
  {
    var l, failed := s.flights[flight].lock, Apply(s, SaveCall(flight, false)).0;
    FailedSaveHoldsTheLock(s, flight);
    ApplyKeepsInv(s, SaveCall(flight, false));
    ApplyKeepsInv(failed, ReleaseCall(flight));
    ReleasesGiveTheLockBack(failed, ReleaseCall(flight));
    var released := Apply(failed, ReleaseCall(flight)).0;
    hide Run, Inv;
    GivenStaysOver(released, calls, l, s.locks[l].expiresAt);
    ConvertsExactlyInTime(Run(released, calls), l, s.locks[l].expiresAt, key);
  }

  lemma FailedSaveHoldsTheLock(s: Desk, flight: nat)
    requires OwnersOk(s) && flight < |s.flights| && s.flights[flight].phase == Holding
    ensures var failed := Apply(s, SaveCall(flight, false)).0;
            && failed.locks == s.locks && failed.now == s.now && s.flights[flight].lock < |s.locks|
            && flight < |failed.flights| && failed.flights[flight] == s.flights[flight].(phase := Failed)
            && Apply(failed, ReleaseCall(flight)).1 == Done
  {
  }

  lemma ConvertsExactlyInTime(s: Desk, l: nat, expiresAt: int, key: string)
    requires Given(s, l, expiresAt)
    ensures Apply(s, ConvertCall(l, key)).1.FlightReply? <==> s.now < expiresAt
  {
  }
}

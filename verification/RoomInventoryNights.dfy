// No night is oversold exactly while nothing is placed where its rooms no longer fit; what each placing does to the nights
// it covers, and to the limits it was read under.

module RoomInventoryNights {
  import opened Common
  import opened Sums
  import opened RoomInventory
  import opened RoomInventoryTheorems

  ghost predicate CapacityOk(s: Desk) {
    forall room: nat, night: int :: room < |s.capacity| ==> Kept(s, room, night) <= s.capacity[room]
  }

  lemma {:induction false} SumAtMost(f: nat -> int, g: nat -> int, n: nat)
    requires forall i: nat :: i < n ==> f(i) <= g(i)
    ensures Sum(f, n) <= Sum(g, n)
  {
    if n > 0 {
      SumAtMost(f, g, n - 1);
    }
  }

  // Locks may lose nights, quantity or life, one by one: no night is kept more than before.
  ghost predicate Shrinks(s: Desk, s': Desk) {
    && s'.capacity == s.capacity && |s'.locks| == |s.locks|
    && forall i :: 0 <= i < |s.locks| ==> ShrinksTo(s.locks[i], s.now, s'.locks[i], s'.now)
  }

  ghost predicate ShrinksTo(l: Lock, now: int, l': Lock, now': int) {
    l' == l.(status := l'.status) && (Live(l', now') ==> Live(l, now))
  }

  lemma ShrinkKeepsCapacity(s: Desk, s': Desk)
    requires CapacityOk(s) && Shrinks(s, s')
    ensures CapacityOk(s')
  {
    forall room: nat, night: int | room < |s'.capacity| ensures Kept(s', room, night) <= s'.capacity[room] {
      var f, g := NightTerm(s'.locks, s'.now, room, night), NightTerm(s.locks, s.now, room, night);
      forall i: nat | i < |s.locks| ensures f(i) <= g(i) {
        assert ShrinksTo(s.locks[i], s.now, s'.locks[i], s'.now);
      }
      SumAtMost(f, g, |s.locks|);
      assert Kept(s, room, night) <= s.capacity[room];
    }
  }

  // On each night of a stay no more is kept than is reserved by the locks overlapping the stay.
  lemma KeptAtMostReserved(s: Desk, room: nat, checkIn: int, checkOut: int, night: int)
    requires checkIn <= night < checkOut
    ensures Kept(s, room, night) <= Reserved(s, room, checkIn, checkOut, -1)
  {
    SumAtMost(NightTerm(s.locks, s.now, room, night), StayTerm(s.locks, s.now, room, checkIn, checkOut, -1), |s.locks|);
  }

  lemma KeptAfterAppend(s: Desk, l: Lock, room: nat, night: int)
    ensures Kept(s.(locks := s.locks + [l]), room, night)
            == Kept(s, room, night) + if l.room == room && Live(l, s.now) && Covers(l, night) then l.quantity else 0
  {
    var f, g := NightTerm(s.locks, s.now, room, night), NightTerm(s.locks + [l], s.now, room, night);
    SumSame(f, g, |s.locks|);
  }

  // Rooms of a type kept on one night by the locks other than one.
  function OthersTerm(locks: seq<Lock>, now: int, room: nat, night: int, except: nat): nat -> int {
    (i: nat) =>
      if i < |locks| && i != except && locks[i].room == room && Live(locks[i], now) && Covers(locks[i], night) then locks[i].quantity else 0
  }

  function KeptByOthers(s: Desk, room: nat, night: int, except: nat): int {
    Sum(OthersTerm(s.locks, s.now, room, night, except), |s.locks|)
  }

  // What one lock keeps of a room type on a night.
  function KeptBy(l: Lock, now: int, room: nat, night: int): int {
    if l.room == room && Live(l, now) && Covers(l, night) then l.quantity else 0
  }

  lemma KeptIsOthersAndOwn(s: Desk, id: nat, room: nat, night: int)
    requires id < |s.locks|
    ensures Kept(s, room, night) == KeptByOthers(s, room, night, id) + KeptBy(s.locks[id], s.now, room, night)
  {
    SumChangedAt(OthersTerm(s.locks, s.now, room, night, id), NightTerm(s.locks, s.now, room, night), id, |s.locks|);
  }

  // Changing one lock leaves what the others keep.
  lemma OthersKeepTheSame(s: Desk, id: nat, l: Lock, room: nat, night: int)
    requires id < |s.locks|
    ensures KeptByOthers(s.(locks := s.locks[id := l]), room, night, id) == KeptByOthers(s, room, night, id)
  {
    SumSame(OthersTerm(s.locks, s.now, room, night, id), OthersTerm(s.locks[id := l], s.now, room, night, id), |s.locks|);
  }

  // On each night of a stay no more is kept than is reserved by the locks overlapping the stay.
  lemma OthersAtMostReserved(s: Desk, room: nat, checkIn: int, checkOut: int, night: int, except: nat)
    requires checkIn <= night < checkOut
    ensures KeptByOthers(s, room, night, except) <= Reserved(s, room, checkIn, checkOut, except)
  {
    SumAtMost(OthersTerm(s.locks, s.now, room, night, except), StayTerm(s.locks, s.now, room, checkIn, checkOut, except), |s.locks|);
  }

  // ---- the steps that place rooms ----

  ghost predicate Holds(s: Desk, c: Call) { c.HoldCall? && c.draft < |s.drafts| }

  // An approved change is written, and this is its lock.
  ghost predicate Moves(s: Desk, c: Call, id: nat) {
    c.MoveCall? && Move(s, c).1.AmendmentReply? && Amends(s, s.approvals[c.approval], id)
  }

  function NewStay(s: Desk, c: Call): Amendment
    requires c.MoveCall? && Move(s, c).1.AmendmentReply?
  {
    s.amendments[s.approvals[c.approval].amendment]
  }

  // The night that is held keeps exactly as many rooms more.
  lemma HeldNightIsKept(s: Desk, c: Call, room: nat, night: int)
    requires Holds(s, c)
    ensures var d := s.drafts[c.draft];
            Kept(Hold(s, c).0, room, night) == Kept(s, room, night) + if d.room == room && d.checkIn <= night < d.checkOut then d.rooms else 0
  {
    KeptAfterAppend(s, DraftLock(s.drafts[c.draft], s.now), room, night);
  }

  // A night after a move keeps what other locks keep on it and, if it is of the new stay and the lock still keeps rooms
  // from others, the rooms of the booking, wherever those were before.
  lemma MovedNightIsKept(s: Desk, c: Call, id: nat, room: nat, night: int)
    requires Moves(s, c, id)
    ensures var l, a := s.locks[id], NewStay(s, c);
            Kept(Move(s, c).0, room, night)
            == KeptByOthers(s, room, night, id) + if l.room == room && Live(l, s.now) && a.checkIn <= night < a.checkOut then l.quantity else 0
  {
    var s', a := Move(s, c).0, NewStay(s, c);
    var moved := s.(locks := s'.locks);
    assert moved.locks == s.locks[id := s'.locks[id]];
    OthersKeepTheSame(s, id, s'.locks[id], room, night);
    KeptIsOthersAndOwn(moved, id, room, night);
    assert Kept(s', room, night) == Kept(moved, room, night);
  }

  // On some night of the stay the rooms that are placed no longer fit.
  ghost predicate HoldOverplaces(s: Desk, c: Call) {
    && Holds(s, c)
    && var d := s.drafts[c.draft];
       d.room < |s.capacity| && exists night :: d.checkIn <= night < d.checkOut && Kept(s, d.room, night) + d.rooms > s.capacity[d.room]
  }

  ghost predicate MoveOverplaces(s: Desk, c: Call) {
    exists id: nat :: Moves(s, c, id) && MovesTooFar(s, c, id)
  }

  ghost predicate MovesTooFar(s: Desk, c: Call, id: nat)
    requires Moves(s, c, id)
  {
    var l, a := s.locks[id], NewStay(s, c);
    && Live(l, s.now) && l.room < |s.capacity|
    && exists night :: a.checkIn <= night < a.checkOut && KeptByOthers(s, l.room, night, id) + l.quantity > s.capacity[l.room]
  }

  ghost predicate Overplaces(s: Desk, c: Call) { HoldOverplaces(s, c) || MoveOverplaces(s, c) }

  lemma HoldKeepsCapacityExactly(s: Desk, c: Call)
    requires CapacityOk(s) && c.HoldCall?
    ensures CapacityOk(Hold(s, c).0) <==> !HoldOverplaces(s, c)
  {
    var s' := Hold(s, c).0;
    if Holds(s, c) {
      var d := s.drafts[c.draft];
      if HoldOverplaces(s, c) {
        var night :| d.checkIn <= night < d.checkOut && Kept(s, d.room, night) + d.rooms > s.capacity[d.room];
        HeldNightIsKept(s, c, d.room, night);
        assert Kept(s', d.room, night) > s'.capacity[d.room];
      } else {
        forall room: nat, night: int | room < |s'.capacity| ensures Kept(s', room, night) <= s'.capacity[room] {
          HeldNightIsKept(s, c, room, night);
          assert Kept(s, room, night) <= s.capacity[room];
        }
      }
    }
  }

  lemma MoveKeepsCapacityExactly(s: Desk, c: Call, id: nat)
    requires CapacityOk(s) && Moves(s, c, id)
    ensures CapacityOk(Move(s, c).0) <==> !MovesTooFar(s, c, id)
  {
    hide Move, Kept, KeptByOthers;
    var s', l, a := Move(s, c).0, s.locks[id], NewStay(s, c);
    assert s'.capacity == s.capacity by { MoveKeepsTheRest(s, c); }
    if MovesTooFar(s, c, id) {
      var night :| a.checkIn <= night < a.checkOut && KeptByOthers(s, l.room, night, id) + l.quantity > s.capacity[l.room];
      MovedNightIsKept(s, c, id, l.room, night);
      assert Kept(s', l.room, night) > s'.capacity[l.room];
    } else {
      forall room: nat, night: int | room < |s'.capacity| ensures Kept(s', room, night) <= s'.capacity[room] {
        MovedNightIsKept(s, c, id, room, night);
        KeptIsOthersAndOwn(s, id, room, night);
        assert Kept(s, room, night) <= s.capacity[room];
      }
    }
  }

  lemma MoveKeepsTheRest(s: Desk, c: Call)
    requires c.MoveCall?
    ensures Move(s, c).0.capacity == s.capacity && Move(s, c).0.now == s.now
    ensures !Move(s, c).1.AmendmentReply? ==> Move(s, c).0 == s
  {
  }

  lemma OtherCallsShrink(s: Desk, c: Call)
    requires !c.HoldCall? && !c.MoveCall?
    ensures Shrinks(s, Apply(s, c).0)
  {
    hide Reserved, StayLimit, Clashes, HasPending, OverrideRange;
  }

  lemma MoveHasItsLock(s: Desk, c: Call) returns (id: nat)
    requires c.MoveCall? && Move(s, c).1.AmendmentReply?
    ensures Moves(s, c, id) && (MoveOverplaces(s, c) <==> MovesTooFar(s, c, id))
  {
    hide MovesTooFar;
    id := s.bookings[NewStay(s, c).booking].lock;
  }

  lemma HoldsDoNotMove(s: Desk, c: Call)
    requires c.HoldCall?
    ensures !MoveOverplaces(s, c)
  {
  }

  lemma StepKeepsCapacityExactly(s: Desk, c: Call)
    requires CapacityOk(s)
    ensures CapacityOk(Apply(s, c).0) <==> !Overplaces(s, c)
  {
    hide CapacityOk, MovesTooFar, Hold, MoveOverplaces, Moves;
    if c.HoldCall? {
      HoldsDoNotMove(s, c);
      HoldKeepsCapacityExactly(s, c);
    } else if c.MoveCall? {
      MoveKeepsTheRest(s, c);
      if Move(s, c).1.AmendmentReply? {
        var id := MoveHasItsLock(s, c);
        MoveKeepsCapacityExactly(s, c, id);
      } else {
        NothingMoves(s, c);
      }
    } else {
      OtherCallsShrink(s, c);
      ShrinkKeepsCapacity(s, Apply(s, c).0);
      OthersPlaceNothing(s, c);
    }
  }

  lemma NothingMoves(s: Desk, c: Call)
    requires c.MoveCall? && !Move(s, c).1.AmendmentReply?
    ensures !Overplaces(s, c)
  {
  }

  lemma OthersPlaceNothing(s: Desk, c: Call)
    requires !c.HoldCall? && !c.MoveCall?
    ensures !Overplaces(s, c)
  {
  }

  // ---- over every run ----

  ghost predicate CapacityThroughout(s: Desk, calls: seq<Call>) {
    forall n :: 0 <= n <= |calls| ==> CapacityOk(Run(s, calls[..n]))
  }

  ghost predicate NothingOverplaces(s: Desk, calls: seq<Call>) {
    forall n :: 0 <= n < |calls| ==> !Overplaces(Run(s, calls[..n]), calls[n])
  }

  lemma ThroughoutExtended(s: Desk, calls: seq<Call>)
    requires calls != []
    ensures CapacityThroughout(s, calls) <==> CapacityThroughout(s, calls[..|calls| - 1]) && CapacityOk(Run(s, calls))
  {
    hide Run, CapacityOk;
    var before := calls[..|calls| - 1];
    assert calls[..|calls|] == calls;
    assert forall n :: 0 <= n <= |before| ==> before[..n] == calls[..n];
  }

  lemma NothingOverplacesExtended(s: Desk, calls: seq<Call>)
    requires calls != []
    ensures var before, c := calls[..|calls| - 1], calls[|calls| - 1];
            NothingOverplaces(s, calls) <==> NothingOverplaces(s, before) && !Overplaces(Run(s, before), c)
  {
    hide Run, Overplaces;
    var before := calls[..|calls| - 1];
    assert forall n :: 0 <= n < |before| ==> before[..n] == calls[..n] && before[n] == calls[n];
  }

  lemma ThroughoutIsNow(s: Desk, calls: seq<Call>)
    requires CapacityThroughout(s, calls)
    ensures CapacityOk(Run(s, calls))
  {
    hide Run, CapacityOk;
    assert calls[..|calls|] == calls;
  }

  lemma OpeningCapacity(capacity: seq<nat>, now: int)
    ensures CapacityOk(Opening(capacity, now)) && CapacityThroughout(Opening(capacity, now), [])
  {
    var s := Opening(capacity, now);
    forall room: nat, night: int | room < |capacity| ensures Kept(s, room, night) <= capacity[room] {
      assert Kept(s, room, night) == 0;
    }
    var none: seq<Call> := [];
    assert none[..0] == none;
  }

  // Over every run of quotes, confirmations, failed saves, releases, cancellations, expiries and amendments: no night of
  // any room type is ever kept by more rooms than it has exactly when no hold and no move was placed where its rooms no
  // longer fitted.
  lemma {:induction false} NeverOversoldExactly(capacity: seq<nat>, now: int, calls: seq<Call>)
    ensures CapacityThroughout(Opening(capacity, now), calls) <==> NothingOverplaces(Opening(capacity, now), calls)
  {
    var s := Opening(capacity, now);
    if calls == [] {
      OpeningCapacity(capacity, now);
    } else {
      hide Apply, Opening, CapacityOk, Overplaces, CapacityThroughout, NothingOverplaces;
      var before := calls[..|calls| - 1];
      NeverOversoldExactly(capacity, now, before);
      ThroughoutExtended(s, calls);
      NothingOverplacesExtended(s, calls);
      if CapacityThroughout(s, before) {
        ThroughoutIsNow(s, before);
        StepKeepsCapacityExactly(Run(s, before), calls[|calls| - 1]);
      }
    }
  }

  // ---- a placing that follows its reading at once ----

  // What no longer fits was taken by others since it was read.
  lemma OverplacedHoldsAreStale(s: Desk, c: Call)
    requires ReadingsOk(s) && HoldOverplaces(s, c)
    ensures var d := s.drafts[c.draft];
            exists night :: d.checkIn <= night < d.checkOut && Kept(s, d.room, night) > d.reserved
  {
    var d := s.drafts[c.draft];
    assert DraftOk(s, d);
    var night :| d.checkIn <= night < d.checkOut && Kept(s, d.room, night) + d.rooms > s.capacity[d.room];
    assert Kept(s, d.room, night) > d.reserved;
  }

  lemma OverplacedMovesAreStale(s: Desk, c: Call, id: nat)
    requires ReadingsOk(s) && Moves(s, c, id) && MovesTooFar(s, c, id)
    ensures var a := NewStay(s, c);
            exists night :: a.checkIn <= night < a.checkOut && KeptByOthers(s, s.locks[id].room, night, id) > s.approvals[c.approval].reserved
  {
    hide KeptByOthers;
    var l, a := s.locks[id], NewStay(s, c);
    assert ApprovalOk(s, s.approvals[c.approval]);
    var night :| a.checkIn <= night < a.checkOut && KeptByOthers(s, l.room, night, id) + l.quantity > s.capacity[l.room];
    assert KeptByOthers(s, l.room, night, id) > s.approvals[c.approval].reserved;
  }

  // A quote's lock is made, or an approved change written, with nothing in between since it was read.
  ghost predicate PromptAt(s: Desk, calls: seq<Call>, n: nat)
    requires n < |calls|
  {
    && (calls[n].HoldCall? ==> n >= 1 && ReadsQuote(Run(s, calls[..n - 1]), calls[n - 1], calls[n].draft))
    && (calls[n].MoveCall? ==> n >= 2 && calls[n - 1] == CheckCall(calls[n].approval)
                               && ReadsChange(Run(s, calls[..n - 2]), calls[n - 2], calls[n].approval))
  }

  ghost predicate ReadsQuote(s: Desk, c: Call, draft: nat) { c.LookCall? && Look(s, c).1 == DraftReply(draft) }

  ghost predicate ReadsChange(s: Desk, c: Call, approval: nat) { c.ReviewCall? && ReviewChange(s, c).1 == ApprovalReply(approval) }

  ghost predicate Prompt(s: Desk, calls: seq<Call>) { forall n: nat :: n < |calls| ==> PromptAt(s, calls, n) }

  lemma {:induction false} PromptHoldsFit(s: Desk, look: Call, hold: Call)
    requires Inv(s) && hold.HoldCall? && ReadsQuote(s, look, hold.draft)
    ensures !Overplaces(Look(s, look).0, hold)
  {
    var s1 := Look(s, look).0;
    ApplyKeepsInv(s, look);
    var d := s1.drafts[hold.draft];
    if HoldOverplaces(s1, hold) {
      OverplacedHoldsAreStale(s1, hold);
      var night :| d.checkIn <= night < d.checkOut && Kept(s1, d.room, night) > d.reserved;
      KeptAtMostReserved(s1, d.room, d.checkIn, d.checkOut, night);
      assert false;
    }
  }

  // What a review reads, at that moment.
  lemma ReviewReads(s: Desk, review: Call)
    requires review.ReviewCall? && ReviewChange(s, review).1.ApprovalReply?
    ensures var s1 := ReviewChange(s, review).0;
            var a := s.amendments[review.amendment];
            && review.amendment < |s.amendments| && a.booking < |s.bookings| && s.bookings[a.booking].lock < |s.locks|
            && s1.amendments == s.amendments && s1.bookings == s.bookings && |s1.locks| == |s.locks|
            && |s1.approvals| == |s.approvals| + 1
            && var p, id := s1.approvals[|s.approvals|], s.bookings[a.booking].lock;
               && p.amendment == review.amendment && s1.locks[id].room == s.locks[id].room
               && p.reserved == Reserved(s1, s.locks[id].room, a.checkIn, a.checkOut, id)
  {
    hide StayLimit;
    var a := s.amendments[review.amendment];
    var id := s.bookings[a.booking].lock;
    ReservedByLocks(s.(locks := Swept(s.locks, s.locks[id].room, s.now)), ReviewChange(s, review).0, s.locks[id].room, a.checkIn, a.checkOut, id);
  }

  // A move by a reading that is still true fits.
  lemma FreshMovesFit(s: Desk, move: Call, id: nat)
    requires ReadingsOk(s) && Moves(s, move, id)
    requires var a := NewStay(s, move);
             s.approvals[move.approval].reserved == Reserved(s, s.locks[id].room, a.checkIn, a.checkOut, id)
    ensures !MovesTooFar(s, move, id)
  {
    hide KeptByOthers, Reserved, ReadingsOk;
    if MovesTooFar(s, move, id) {
      OverplacedMovesAreStale(s, move, id);
      var a, room := NewStay(s, move), s.locks[id].room;
      var night :| a.checkIn <= night < a.checkOut && KeptByOthers(s, room, night, id) > s.approvals[move.approval].reserved;
      OthersAtMostReserved(s, room, a.checkIn, a.checkOut, night, id);
      assert false;
    }
  }

  lemma InvAfterReview(s: Desk, review: Call, check: Call)
    requires Inv(s) && review.ReviewCall? && check.CheckCall?
    ensures ReadingsOk(Check(ReviewChange(s, review).0, check).0)
  {
    ApplyKeepsInv(s, review);
    ApplyKeepsInv(Apply(s, review).0, check);
    hide Inv, ReviewChange, Check;
    InvHasReadings(Apply(Apply(s, review).0, check).0);
  }

  // An approval that was just read and checked still reads what it read.
  ghost predicate StillReads(s: Desk, approval: nat) {
    && approval < |s.approvals| && s.approvals[approval].amendment < |s.amendments|
    && var p := s.approvals[approval];
       var a := s.amendments[p.amendment];
       && a.booking < |s.bookings| && s.bookings[a.booking].lock < |s.locks|
       && var id := s.bookings[a.booking].lock;
          p.reserved == Reserved(s, s.locks[id].room, a.checkIn, a.checkOut, id)
  }

  lemma CheckedStillReads(s: Desk, review: Call, approval: nat)
    requires ReadsChange(s, review, approval)
    ensures StillReads(Check(ReviewChange(s, review).0, CheckCall(approval)).0, approval)
  {
    ReviewIsTheApproval(s, review, approval);
    ReviewReads(s, review);
    var s1, check := ReviewChange(s, review).0, CheckCall(approval);
    CheckChangesNoLock(s1, check);
    hide ReviewChange, Check, Reserved;
    var a := s.amendments[review.amendment];
    var id := s.bookings[a.booking].lock;
    ReservedByLocks(s1, Check(s1, check).0, s.locks[id].room, a.checkIn, a.checkOut, id);
  }

  lemma {:induction false} PromptMovesFit(s: Desk, review: Call, move: Call)
    requires Inv(s) && move.MoveCall? && ReadsChange(s, review, move.approval)
    ensures !Overplaces(Check(ReviewChange(s, review).0, CheckCall(move.approval)).0, move)
  {
    var s2 := Check(ReviewChange(s, review).0, CheckCall(move.approval)).0;
    InvAfterReview(s, review, CheckCall(move.approval));
    CheckedStillReads(s, review, move.approval);
    hide ReviewChange, Check, Inv, Reserved, ReadingsOk, MovesTooFar;
    if Move(s2, move).1.AmendmentReply? {
      var id := MoveHasItsLock(s2, move);
      FreshMovesFit(s2, move, id);
    } else {
      NothingMoves(s2, move);
    }
  }

  lemma ReviewIsTheApproval(s: Desk, review: Call, approval: nat)
    requires ReadsChange(s, review, approval)
    ensures approval == |s.approvals| && Apply(s, review).0 == ReviewChange(s, review).0
  {
    hide Reserved, StayLimit, Swept;
  }

  lemma InvHasReadings(s: Desk)
    requires Inv(s)
    ensures ReadingsOk(s)
  {
  }

  lemma ReservedByLocks(s: Desk, s': Desk, room: nat, checkIn: int, checkOut: int, except: int)
    requires s'.locks == s.locks && s'.now == s.now
    ensures Reserved(s', room, checkIn, checkOut, except) == Reserved(s, room, checkIn, checkOut, except)
  {
  }

  lemma CheckChangesNoLock(s: Desk, c: Call)
    requires c.CheckCall?
    ensures var s' := Check(s, c).0;
            && s'.locks == s.locks && s'.now == s.now && s'.amendments == s.amendments && s'.bookings == s.bookings
            && |s'.approvals| == |s.approvals|
            && forall p :: 0 <= p < |s.approvals| ==> s'.approvals[p] == s.approvals[p].(checked := s'.approvals[p].checked)
  {
  }

  lemma PromptHoldStep(capacity: seq<nat>, now: int, calls: seq<Call>)
    requires calls != [] && PromptAt(Opening(capacity, now), calls, |calls| - 1) && calls[|calls| - 1].HoldCall?
    ensures !Overplaces(Run(Opening(capacity, now), calls[..|calls| - 1]), calls[|calls| - 1])
  {
    var o, last := Opening(capacity, now), |calls| - 1;
    hide Run, Opening, Look, Overplaces, Inv;
    var s := Run(o, calls[..last - 1]);
    RunPrefix(o, calls, last - 1);
    RunKeepsInv(capacity, now, calls[..last - 1]);
    LookApplied(s, calls[last - 1]);
    hide Apply;
    PromptHoldsFit(s, calls[last - 1], calls[last]);
  }

  lemma LookApplied(s: Desk, c: Call)
    requires c.LookCall?
    ensures Apply(s, c) == Look(s, c)
  {
    hide Look;
  }

  lemma ReviewApplied(s: Desk, c: Call)
    requires c.ReviewCall? || c.CheckCall?
    ensures Apply(s, c) == if c.ReviewCall? then ReviewChange(s, c) else Check(s, c)
  {
    hide ReviewChange, Check;
  }

  lemma PromptMoveStep(capacity: seq<nat>, now: int, calls: seq<Call>)
    requires calls != [] && PromptAt(Opening(capacity, now), calls, |calls| - 1) && calls[|calls| - 1].MoveCall?
    ensures !Overplaces(Run(Opening(capacity, now), calls[..|calls| - 1]), calls[|calls| - 1])
  {
    var o, last := Opening(capacity, now), |calls| - 1;
    hide Run, Opening, ReviewChange, Check, Overplaces, Inv, Apply;
    var s := Run(o, calls[..last - 2]);
    RunPrefix(o, calls, last - 2);
    RunPrefix(o, calls, last - 1);
    RunKeepsInv(capacity, now, calls[..last - 2]);
    ReviewApplied(s, calls[last - 2]);
    ReviewApplied(Run(o, calls[..last - 1]), calls[last - 1]);
    PromptMovesFit(s, calls[last - 2], calls[last]);
  }

  lemma PromptStep(capacity: seq<nat>, now: int, calls: seq<Call>)
    requires calls != [] && PromptAt(Opening(capacity, now), calls, |calls| - 1)
    ensures !Overplaces(Run(Opening(capacity, now), calls[..|calls| - 1]), calls[|calls| - 1])
  {
    var c := calls[|calls| - 1];
    hide Run, Opening, Overplaces, PromptAt;
    if c.HoldCall? {
      PromptHoldStep(capacity, now, calls);
    } else if c.MoveCall? {
      PromptMoveStep(capacity, now, calls);
    } else {
      OthersPlaceNothing(Run(Opening(capacity, now), calls[..|calls| - 1]), c);
    }
  }

  // In runs in which every placing follows its reading at once, no night of any room type is ever oversold.
  lemma {:induction false} NeverOversoldWithoutOverlap(capacity: seq<nat>, now: int, calls: seq<Call>, room: nat, night: int)
    requires room < |capacity| && Prompt(Opening(capacity, now), calls)
    ensures NothingOverplaces(Opening(capacity, now), calls)
    ensures Kept(Run(Opening(capacity, now), calls), room, night) <= capacity[room]
  {
    hide Opening, Overplaces, PromptAt, CapacityOk, CapacityThroughout, Inv;
    var o := Opening(capacity, now);
    forall n | 0 <= n < |calls| ensures !Overplaces(Run(o, calls[..n]), calls[n]) {
      PromptPrefix(o, calls, n);
      assert calls[..n + 1][..n] == calls[..n];
      PromptStep(capacity, now, calls[..n + 1]);
    }
    NeverOversoldExactly(capacity, now, calls);
    ThroughoutIsNow(o, calls);
    RunKeepsInv(capacity, now, calls);
    CapacityOfARoom(Run(o, calls), room, night);
  }

  lemma CapacityOfARoom(s: Desk, room: nat, night: int)
    requires CapacityOk(s) && room < |s.capacity|
    ensures Kept(s, room, night) <= s.capacity[room]
  {
  }

  lemma PromptPrefix(s: Desk, calls: seq<Call>, n: nat)
    requires n < |calls| && PromptAt(s, calls, n)
    ensures PromptAt(s, calls[..n + 1], n)
  {
    hide Run, ReadsQuote, ReadsChange;
    var before := calls[..n + 1];
    if n >= 1 {
      assert before[..n - 1] == calls[..n - 1];
    }
    if n >= 2 {
      assert before[..n - 2] == calls[..n - 2];
    }
  }

  // ---- the limits that were read ----

  lemma {:induction false} StayLimitIsAtMostEachNight(overrides: map<(nat, int), nat>, room: nat, checkIn: int, checkOut: int, night: int)
    requires checkIn <= night < checkOut && (room, night) in overrides
    ensures StayLimit(overrides, room, checkIn, checkOut).Some?
    ensures StayLimit(overrides, room, checkIn, checkOut).value <= overrides[(room, night)]
    decreases checkOut - checkIn
  {
    if night < checkOut - 1 {
      StayLimitIsAtMostEachNight(overrides, room, checkIn, checkOut - 1, night);
    }
  }

  lemma LookReads(s: Desk, c: Call, night: int)
    requires c.LookCall? && Look(s, c).1.DraftReply? && c.checkIn <= night < c.checkOut
    ensures var s1 := Look(s, c).0;
            && |s1.drafts| == |s.drafts| + 1
            && var d := s1.drafts[|s.drafts|];
               && d.room == c.room && d.checkIn == c.checkIn && d.checkOut == c.checkOut && d.reserved + d.rooms <= d.limit
               && ((c.room, night) in s.overrides ==> d.limit <= s.overrides[(c.room, night)])
               && (c.partnerLimit.Some? ==> d.limit <= c.partnerLimit.value)
               && Kept(s1, c.room, night) <= d.reserved
  {
    var s1 := Look(s, c).0;
    KeptAtMostReserved(s1, c.room, c.checkIn, c.checkOut, night);
    var manual := StayLimit(s.overrides, c.room, c.checkIn, c.checkOut);
    LimitedAtMost(s.capacity[c.room], manual);
    LimitedAtMost(Limited(s.capacity[c.room], manual), c.partnerLimit);
    if (c.room, night) in s.overrides {
      StayLimitIsAtMostEachNight(s.overrides, c.room, c.checkIn, c.checkOut, night);
    }
  }

  lemma {:induction false} DraftsStay(s: Desk, calls: seq<Call>)
    ensures s.drafts <= Run(s, calls).drafts
  {
    hide Apply;
    if calls != [] {
      DraftsStay(s, calls[..|calls| - 1]);
      ApplyKeepsReadingRows(Run(s, calls[..|calls| - 1]), calls[|calls| - 1]);
    }
  }

  // Whatever happens between a quote's reading and its lock: on each night of the stay the lock adds its rooms to what is
  // kept by then, and stays within the manual limit and the partner's limit it read if no more is kept by then than it
  // read; just after the reading no more is.
  lemma {:induction false} QuotesRespectNightLimits(s: Desk, look: Call, calls: seq<Call>, night: int)
    requires look.LookCall? && Look(s, look).1.DraftReply? && look.checkIn <= night < look.checkOut
    ensures var s1 := Look(s, look).0;
            var d, later := s1.drafts[|s.drafts|], Run(s1, calls);
            var s', reply := Hold(later, HoldCall(|s.drafts|)).0, Hold(later, HoldCall(|s.drafts|)).1;
            && reply.LockReply? && Kept(s', look.room, night) == Kept(later, look.room, night) + d.rooms
            && Kept(s1, look.room, night) <= d.reserved
            && (Kept(later, look.room, night) <= d.reserved ==>
                  && ((look.room, night) in s.overrides ==> Kept(s', look.room, night) <= s.overrides[(look.room, night)])
                  && (look.partnerLimit.Some? ==> Kept(s', look.room, night) <= look.partnerLimit.value))
  {
    var s1 := Look(s, look).0;
    var later := Run(s1, calls);
    LookReads(s, look, night);
    DraftsStay(s1, calls);
    assert later.drafts[|s.drafts|] == s1.drafts[|s.drafts|];
    hide Look, Run, Kept;
    HeldNightIsKept(later, HoldCall(|s.drafts|), look.room, night);
  }

  // ---- amendments and night limits ----

  // After an approval is written, each new night keeps exactly what other locks keep on it and, unless the booking was
  // cancelled since, the rooms of the booking.
  lemma ApprovedNightIsKept(s: Desk, c: Call, id: nat, night: int)
    requires OwnersOk(s) && Moves(s, c, id)
    requires var a := NewStay(s, c); a.checkIn <= night < a.checkOut
    ensures var l := s.locks[id];
            Kept(Move(s, c).0, l.room, night)
            == KeptByOthers(s, l.room, night, id) + if s.bookings[NewStay(s, c).booking].confirmed then l.quantity else 0
  {
    var b := NewStay(s, c).booking;
    MovedNightIsKept(s, c, id, s.locks[id].room, night);
    if s.bookings[b].confirmed {
      assert BookedBy(s, id, b);
    }
  }

  lemma ReviewReadsLimit(s: Desk, review: Call, night: int)
    requires review.ReviewCall? && ReviewChange(s, review).1.ApprovalReply?
    requires var a := s.amendments[review.amendment]; a.checkIn <= night < a.checkOut
    ensures var a, p := s.amendments[review.amendment], ReviewChange(s, review).0.approvals[|s.approvals|];
            var room := s.locks[s.bookings[a.booking].lock].room;
            (room, night) in s.overrides ==> p.limit <= s.overrides[(room, night)]
  {
    hide Reserved, Swept;
    var a := s.amendments[review.amendment];
    var room := s.locks[s.bookings[a.booking].lock].room;
    LimitedAtMost(s.capacity[room], StayLimit(s.overrides, room, a.checkIn, a.checkOut));
    if (room, night) in s.overrides {
      StayLimitIsAtMostEachNight(s.overrides, room, a.checkIn, a.checkOut, night);
    }
  }

  // An approval's rows, over every run after its review.
  lemma {:induction false} ApprovalsStay(s: Desk, calls: seq<Call>, p: nat)
    requires p < |s.approvals| && ReadingsOk(s)
    ensures var s' := Run(s, calls);
            && ReadingsOk(s') && p < |s'.approvals| && s'.approvals[p] == s.approvals[p].(checked := s'.approvals[p].checked)
            && var a := s.approvals[p].amendment;
               && a < |s.amendments| <= |s'.amendments| && s'.amendments[a].checkIn == s.amendments[a].checkIn
               && s'.amendments[a].checkOut == s.amendments[a].checkOut && s'.amendments[a].booking == s.amendments[a].booking
               && s.amendments[a].booking < |s.bookings| <= |s'.bookings|
               && var b := s.amendments[a].booking;
                  s'.bookings[b].lock == s.bookings[b].lock < |s.locks| <= |s'.locks|
                  && s'.locks[s.bookings[b].lock].room == s.locks[s.bookings[b].lock].room
                  && s'.locks[s.bookings[b].lock].quantity == s.locks[s.bookings[b].lock].quantity
  {
    hide Apply;
    assert ApprovalOk(s, s.approvals[p]);
    if calls != [] {
      var before, c := Run(s, calls[..|calls| - 1]), calls[|calls| - 1];
      ApprovalsStay(s, calls[..|calls| - 1], p);
      ApplyKeepsRows(before, c);
      ApplyKeepsReadingRows(before, c);
      ApplyKeepsReadings(before, c);
    }
  }

  // Whatever happens between the review of a change and its writing: on each new night it stays within the manual limit it
  // read if others keep no more by then than it read.
  lemma {:induction false} ApprovalsRespectManualLimits(s: Desk, review: Call, calls: seq<Call>, night: int)
    requires Inv(s) && review.ReviewCall? && ReviewChange(s, review).1.ApprovalReply?
    requires var a := s.amendments[review.amendment]; a.checkIn <= night < a.checkOut
    ensures var s1, move := ReviewChange(s, review).0, MoveCall(|s.approvals|);
            var p, id, later := s1.approvals[|s.approvals|], s.bookings[s.amendments[review.amendment].booking].lock, Run(s1, calls);
            var room := s.locks[id].room;
            && KeptByOthers(s1, room, night, id) <= p.reserved
            && (Move(later, move).1.AmendmentReply? && KeptByOthers(later, room, night, id) <= p.reserved
                && (room, night) in s.overrides ==>
                  Kept(Move(later, move).0, room, night) <= s.overrides[(room, night)])
  {
    var s1, move := ReviewChange(s, review).0, MoveCall(|s.approvals|);
    var a := s.amendments[review.amendment];
    var id, later := s.bookings[a.booking].lock, Run(s1, calls);
    var room := s.locks[id].room;
    ReviewIsOk(s, review);
    ReviewReads(s, review);
    ReviewReadsLimit(s, review, night);
    OthersAtMostReserved(s1, room, a.checkIn, a.checkOut, night, id);
    ApplyKeepsInv(s, review);
    InvHasReadings(s1);
    hide ReviewChange, Kept, KeptByOthers, Reserved, Inv, ReadingsOk;
    ApprovalsStay(s1, calls, |s.approvals|);
    if Move(later, move).1.AmendmentReply? {
      assert Moves(later, move, id);
      MovedNightIsKept(later, move, id, room, night);
      ApprovalFits(s, review);
    }
  }

  lemma ApprovalFits(s: Desk, review: Call)
    requires review.ReviewCall? && ReviewChange(s, review).1.ApprovalReply?
    ensures var p := ReviewChange(s, review).0.approvals[|s.approvals|];
            var l := s.locks[s.bookings[s.amendments[review.amendment].booking].lock];
            p.reserved + l.quantity <= p.limit && ReviewChange(s, review).0.locks[s.bookings[s.amendments[review.amendment].booking].lock].quantity == l.quantity
  {
    hide Reserved, StayLimit;
  }

  // The partner calendar's limit is kept on the new nights exactly when the booking's rooms fit beside what others keep on
  // each: the approval does not look at it.
  lemma ApprovalsKeepPartnerLimitsExactlyWhenTheyFit(s: Desk, c: Call, id: nat, limit: int -> nat)
    requires OwnersOk(s) && Moves(s, c, id) && s.bookings[NewStay(s, c).booking].confirmed
    ensures var a, l, s' := NewStay(s, c), s.locks[id], Move(s, c).0;
            (forall night :: a.checkIn <= night < a.checkOut ==> Kept(s', l.room, night) <= limit(night))
            <==> (forall night :: a.checkIn <= night < a.checkOut ==> KeptByOthers(s, l.room, night, id) + l.quantity <= limit(night))
  {
    var a, l, s' := NewStay(s, c), s.locks[id], Move(s, c).0;
    hide Move, Kept, KeptByOthers;
    forall night | a.checkIn <= night < a.checkOut
      ensures Kept(s', l.room, night) == KeptByOthers(s, l.room, night, id) + l.quantity
    {
      ApprovedNightIsKept(s, c, id, night);
    }
  }

  // ---- an amendment past the partner's limit ----

  // Two rooms. One is booked for night 0; the partner's limit for night 1 is one room, which a quote takes; then the
  // booking moves to night 1.
  const PAST_THE_LIMIT :=
    [LookCall(0, 0, 1, 0, 1, None, false, true), HoldCall(0), ConvertCall(0, "a"), SaveCall(0, true),
     LookCall(0, 1, 2, 0, 1, Some(1), false, true), HoldCall(1), RequestCall(0, 1, 2, 0),
     ReviewCall(0, 0, true), CheckCall(0), MoveCall(0)]

  function OneNight(night: int, status: LockStatus): Lock { Lock(0, night, night + 1, 1, status, HOLD_MILLISECONDS) }

  function Booked(locks: seq<Lock>, amendments: seq<Amendment>, drafts: seq<Draft>, approvals: seq<Approval>): Desk {
    Desk([2], map[], 0, locks, [Flight(0, "a", Ended)], [Booking(0, "a", true)], amendments, drafts, approvals)
  }

  const FIRST := Draft(0, 0, 1, 1, 2, 0)
  const SECOND := Draft(0, 1, 2, 1, 1, 0)

  lemma {:induction false} RunPrefix(s: Desk, calls: seq<Call>, n: nat)
    requires n < |calls|
    ensures Run(s, calls[..n + 1]) == Apply(Run(s, calls[..n]), calls[n]).0
  {
    assert calls[..n + 1][..n] == calls[..n];
  }

  lemma SumOfTwo(f: nat -> int)
    ensures Sum(f, 0) == 0 && Sum(f, 1) == f(0) && Sum(f, 2) == f(0) + f(1)
  {
    assert Sum(f, 1) == Sum(f, 0) + f(0);
  }

  lemma FirstIsQuoted()
    ensures Apply(Apply(Opening([2], 0), PAST_THE_LIMIT[0]).0, PAST_THE_LIMIT[1]).0
            == Desk([2], map[], 0, [OneNight(0, Active)], [], [], [], [FIRST], [])
  {
    assert StayLimit(map[], 0, 0, 1) == None;
  }

  lemma FirstIsBooked()
    ensures Apply(Apply(Desk([2], map[], 0, [OneNight(0, Active)], [], [], [], [FIRST], []), PAST_THE_LIMIT[2]).0, PAST_THE_LIMIT[3]).0
            == Booked([OneNight(0, Converted)], [], [FIRST], [])
  {
  }

  lemma SecondIsQuoted()
    ensures Apply(Apply(Booked([OneNight(0, Converted)], [], [FIRST], []), PAST_THE_LIMIT[4]).0, PAST_THE_LIMIT[5]).0
            == Booked([OneNight(0, Converted), OneNight(1, Active)], [], [FIRST, SECOND], [])
  {
    var locks := [OneNight(0, Converted)];
    assert Swept(locks, 0, 0) == locks;
    assert StayLimit(map[], 0, 1, 2) == None;
    SumOfTwo(StayTerm(locks, 0, 0, 1, 2, -1));
  }

  const CHANGE := Amendment(0, 1, 2, Pending)

  lemma ChangeIsRequested()
    ensures Apply(Booked([OneNight(0, Converted), OneNight(1, Active)], [], [FIRST, SECOND], []), PAST_THE_LIMIT[6]).0
            == Booked([OneNight(0, Converted), OneNight(1, Active)], [CHANGE], [FIRST, SECOND], [])
  {
  }

  lemma ChangeIsReviewed()
    ensures Apply(Booked([OneNight(0, Converted), OneNight(1, Active)], [CHANGE], [FIRST, SECOND], []), PAST_THE_LIMIT[7]).0
            == Booked([OneNight(0, Converted), OneNight(1, Active)], [CHANGE], [FIRST, SECOND], [Approval(0, 2, 1, false)])
  {
    var locks := [OneNight(0, Converted), OneNight(1, Active)];
    assert Swept(locks, 0, 0) == locks;
    assert StayLimit(map[], 0, 1, 2) == None;
    SumOfTwo(StayTerm(locks, 0, 0, 1, 2, 0));
  }

  lemma ChangeIsWritten()
    ensures var s := Booked([OneNight(0, Converted), OneNight(1, Active)], [CHANGE], [FIRST, SECOND], [Approval(0, 2, 1, false)]);
            Apply(Apply(s, PAST_THE_LIMIT[8]).0, PAST_THE_LIMIT[9]).0
            == Booked([OneNight(1, Converted), OneNight(1, Active)], [CHANGE.(review := Approved)], [FIRST, SECOND], [Approval(0, 2, 1, true)])
  {
  }

  lemma {:induction false} BeforeTheChange()
    ensures Run(Opening([2], 0), PAST_THE_LIMIT[..7]) == Booked([OneNight(0, Converted), OneNight(1, Active)], [CHANGE], [FIRST, SECOND], [])
  {
    var o := Opening([2], 0);
    assert PAST_THE_LIMIT[..0] == [];
    assert Run(o, []) == o;
    hide Apply, Opening;
    RunPrefix(o, PAST_THE_LIMIT, 0);
    RunPrefix(o, PAST_THE_LIMIT, 1);
    RunPrefix(o, PAST_THE_LIMIT, 2);
    RunPrefix(o, PAST_THE_LIMIT, 3);
    RunPrefix(o, PAST_THE_LIMIT, 4);
    RunPrefix(o, PAST_THE_LIMIT, 5);
    RunPrefix(o, PAST_THE_LIMIT, 6);
    hide Run, Booked, OneNight;
    FirstIsQuoted();
    FirstIsBooked();
    SecondIsQuoted();
    ChangeIsRequested();
  }

  // Before the change is written night 1 keeps one room, as the partner set; after it two.
  lemma {:induction false} AmendmentPassesThePartnerLimit()
    ensures Kept(Run(Opening([2], 0), PAST_THE_LIMIT[..7]), 0, 1) == 1
    ensures Kept(Run(Opening([2], 0), PAST_THE_LIMIT), 0, 1) == 2
  {
    var o := Opening([2], 0);
    BeforeTheChange();
    assert PAST_THE_LIMIT[..10] == PAST_THE_LIMIT;
    hide Apply, Opening;
    RunPrefix(o, PAST_THE_LIMIT, 7);
    RunPrefix(o, PAST_THE_LIMIT, 8);
    RunPrefix(o, PAST_THE_LIMIT, 9);
    ChangeIsReviewed();
    ChangeIsWritten();
    var before, after := Run(o, PAST_THE_LIMIT[..7]), Run(o, PAST_THE_LIMIT);
    hide Run;
    SumOfTwo(NightTerm(before.locks, 0, 0, 1));
    SumOfTwo(NightTerm(after.locks, 0, 0, 1));
  }

  // ---- two quotes at once ----

  // One room. Two quotes read before either makes its lock.
  const LAST_ROOM :=
    [LookCall(0, 0, 1, 0, 1, None, false, true), LookCall(0, 0, 1, 0, 1, None, false, true), HoldCall(0), HoldCall(1)]
  const FREE := Draft(0, 0, 1, 1, 1, 0)

  lemma LastRoomIsFree(drafts: seq<Draft>)
    ensures var s := Desk([1], map[], 0, [], [], [], [], drafts, []);
            Apply(s, LookCall(0, 0, 1, 0, 1, None, false, true)).0 == s.(drafts := drafts + [FREE])
  {
    assert StayLimit(map[], 0, 0, 1) == None;
  }

  lemma {:induction false} BothHaveRead()
    ensures Run(Opening([1], 0), LAST_ROOM[..3]) == Desk([1], map[], 0, [OneNight(0, Active)], [], [], [], [FREE, FREE], [])
  {
    var o := Opening([1], 0);
    assert LAST_ROOM[..0] == [];
    assert Run(o, []) == o;
    hide Run, Look;
    RunPrefix(o, LAST_ROOM, 0);
    RunPrefix(o, LAST_ROOM, 1);
    RunPrefix(o, LAST_ROOM, 2);
    LastRoomIsFree([]);
    LastRoomIsFree([FREE]);
    assert [] + [FREE] == [FREE] && [FREE] + [FREE] == [FREE, FREE];
  }

  // Both locks are made, the second where its room no longer fits: the room is kept twice.
  lemma {:induction false} QuotesThatOverlapOversell()
    ensures var s := Run(Opening([1], 0), LAST_ROOM);
            s.capacity == [1] && Kept(s, 0, 0) == 2 && HoldOverplaces(Run(Opening([1], 0), LAST_ROOM[..3]), LAST_ROOM[3])
  {
    var o := Opening([1], 0);
    BothHaveRead();
    assert LAST_ROOM[..4] == LAST_ROOM;
    RunPrefix(o, LAST_ROOM, 3);
    hide Run, Opening;
    var third, s := Run(o, LAST_ROOM[..3]), Run(o, LAST_ROOM);
    SumOfTwo(NightTerm(third.locks, 0, 0, 0));
    SumOfTwo(NightTerm(s.locks, 0, 0, 0));
    assert Kept(third, 0, 0) == 1;
  }
}

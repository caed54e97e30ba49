// The cash of a closed day against the drawers opened that day, over every run from empty books.

module HotelBooksDays {
  import opened Common
  import opened Sums
  import opened HotelBooks
  import opened HotelBooksInvariant
  import opened HotelBooksPreservation
  import opened HotelBooksHistory
  import opened HotelBooksMoney
  import opened HotelBooksRuns

  // While no date is stored for the property, every call is made on one calendar day.
  ghost predicate OneDayUntilTheFirstClose(calls: seq<Call>, p: nat, day: int) {
    forall n :: 0 <= n < |calls| ==> OnDayWhileUnstored(Run(EMPTY, calls[..n]), calls[n], p, day)
  }

  ghost predicate OnDayWhileUnstored(s: Books, c: Call, p: nat, day: int) {
    HasToday(c) && (p < |s.properties| ==> s.properties[p].date.None?) ==> c.today == day
  }

  lemma OneDayBefore(calls: seq<Call>, p: nat, day: int)
    requires calls != [] && OneDayUntilTheFirstClose(calls, p, day)
    ensures var before := calls[..|calls| - 1];
            OneDayUntilTheFirstClose(before, p, day) && OnDayWhileUnstored(Run(EMPTY, before), calls[|calls| - 1], p, day)
  {
    hide Run, OnDayWhileUnstored;
    var before := calls[..|calls| - 1];
    assert forall n :: 0 <= n < |before| ==> before[..n] == calls[..n] && before[n] == calls[n];
  }

  // Every posting in a drawer of the property carries the drawer's date; drawers opened before a date is stored, the day.
  ghost predicate PostingOk(s: Books, p: nat, e: Entry)
    requires e.shift.Some?
  {
    e.shift.value < |s.shifts| && (s.shifts[e.shift.value].property == p ==> e.date == s.shifts[e.shift.value].date)
  }

  ghost predicate PostingsOk(s: Books, p: nat) {
    forall i :: 0 <= i < |s.entries| && s.entries[i].shift.Some? ==> PostingOk(s, p, s.entries[i])
  }

  ghost predicate FirstDrawersOk(s: Books, p: nat, day: int) {
    p < |s.properties| && s.properties[p].date.None? ==>
      forall k :: 0 <= k < |s.shifts| && s.shifts[k].property == p ==> s.shifts[k].date == day
  }

  lemma {:induction false} ApplyKeepsPostings(s: Books, c: Call, p: nat, day: int)
    requires Inv(s) && PostingsOk(s, p) && FirstDrawersOk(s, p, day) && OnDayWhileUnstored(s, c, p, day)
    ensures PostingsOk(Apply(s, c).0, p)
  {
    hide Apply;
    var s' := Apply(s, c).0;
    ApplyIsLater(s, c);
    forall i | 0 <= i < |s'.entries| && s'.entries[i].shift.Some? ensures PostingOk(s', p, s'.entries[i]) {
      var e := s'.entries[i];
      if i < |s.entries| {
        assert PostingOk(s, p, s.entries[i]);
        assert SameShift(s.shifts[e.shift.value], s'.shifts[e.shift.value]);
      } else {
        NewEntryIsOnDrawerDate(s, c, i);
        assert OnDate(s, s.shifts[e.shift.value].property, s.shifts[e.shift.value].date);
        assert SameShift(s.shifts[e.shift.value], s'.shifts[e.shift.value]);
      }
    }
  }

  lemma OnlyOpeningAddsShifts(s: Books, c: Call)
    ensures !c.OpenShiftCall? ==> |Apply(s, c).0.shifts| == |s.shifts|
    ensures c.OpenShiftCall? ==> Apply(s, c).0.properties == s.properties
    ensures c.OpenShiftCall? && Apply(s, c).0.shifts != s.shifts ==>
              && c.property < |s.properties| && |Apply(s, c).0.shifts| == |s.shifts| + 1
              && Apply(s, c).0.shifts[|s.shifts|].property == c.property
              && Apply(s, c).0.shifts[|s.shifts|].date == OperationalDate(s.properties[c.property], c.today)
  {
  }

  lemma {:induction false} ApplyKeepsFirstDrawers(s: Books, c: Call, p: nat, day: int)
    requires Inv(s) && FirstDrawersOk(s, p, day) && OnDayWhileUnstored(s, c, p, day)
    ensures FirstDrawersOk(Apply(s, c).0, p, day)
  {
    hide Apply;
    var s' := Apply(s, c).0;
    ApplyIsLater(s, c);
    OnlyOpeningAddsShifts(s, c);
    if p < |s'.properties| && s'.properties[p].date.None? {
      forall k | 0 <= k < |s'.shifts| && s'.shifts[k].property == p ensures s'.shifts[k].date == day {
        if k < |s.shifts| {
          assert SameShift(s.shifts[k], s'.shifts[k]) && ShiftOk(s, k);
          assert LaterProperty(s.properties[p], s'.properties[p]);
        }
      }
    }
  }

  lemma {:induction false} RunKeepsPostings(calls: seq<Call>, p: nat, day: int)
    requires OneDayUntilTheFirstClose(calls, p, day)
    ensures PostingsOk(Run(EMPTY, calls), p) && FirstDrawersOk(Run(EMPTY, calls), p, day)
  {
    hide Apply, Inv, OnDayWhileUnstored;
    if calls != [] {
      var before, c := calls[..|calls| - 1], calls[|calls| - 1];
      OneDayBefore(calls, p, day);
      RunKeepsPostings(before, p, day);
      ReachableBooksKeepInv(before);
      ApplyKeepsPostings(Run(EMPTY, before), c, p, day);
      ApplyKeepsFirstDrawers(Run(EMPTY, before), c, p, day);
    }
  }

  lemma PostingsAreOnDate(s: Books, p: nat, from: int)
    requires PostingsOk(s, p)
    ensures DrawersOnDate(s, p, from)
  {
    forall i | 0 <= i < |s.entries| && s.entries[i].shift.Some? ensures DrawerOnDate(s, p, from, s.entries[i]) {
      assert PostingOk(s, p, s.entries[i]);
    }
  }

  // Over every run from empty books whose calls before the property's first close are made on one calendar day: each
  // closed day reconciles, the cash postings dated that day being the cash counted over the floats of the drawers opened
  // that day.
  lemma {:induction false} ClosedDaysReconcile(calls: seq<Call>, p: nat, day: int, date: int)
    requires OneDayUntilTheFirstClose(calls, p, day)
    requires var s := Run(EMPTY, calls); p < |s.properties| && s.properties[p].date.Some? && date < s.properties[p].date.value
    ensures var s := Run(EMPTY, calls);
            Sum(DayCash(s, p, date), |s.entries|) == Sum(CountedMovement(s, DayDrawers(s, p, date)), |s.shifts|)
  {
    hide Run, OneDayUntilTheFirstClose;
    var s := Run(EMPTY, calls);
    ReachableBooksKeepInv(calls);
    RunKeepsPostings(calls, p, day);
    PostingsAreOnDate(s, p, date);
    DayDrawersAreClosed(s, p, date);
    DayCashIsInDayDrawers(s, p, date, date);
    ClosedDrawersReconcile(s, DayDrawers(s, p, date));
  }

  // ---- exactly when a day reconciles ----

  // Cash dated this day in a drawer opened on another, and cash of another day in a drawer opened on this one.
  function StrayedOut(s: Books, p: nat, date: int): nat -> int {
    (i: nat) =>
      if i < |s.entries| && s.entries[i].shift.Some? && DayDrawers(s, p, date)(s.entries[i].shift.value) then 0 else DayCash(s, p, date)(i)
  }

  function StrayedIn(s: Books, p: nat, date: int): nat -> int {
    (i: nat) => if i < |s.entries| && s.entries[i].date == date then 0 else DrawerPostings(s, DayDrawers(s, p, date))(i)
  }

  function AtHome(s: Books, p: nat, date: int): nat -> int {
    (i: nat) =>
      if i < |s.entries| && s.entries[i].date == date && s.entries[i].shift.Some? && DayDrawers(s, p, date)(s.entries[i].shift.value)
      then CashEffect(s.entries, s.entries[i]) else 0
  }

  lemma EntryIsAtHomeOrStrayed(s: Books, p: nat, date: int, i: nat)
    requires EntriesOk(s) && i < |s.entries|
    ensures DayCash(s, p, date)(i) == AtHome(s, p, date)(i) + StrayedOut(s, p, date)(i)
    ensures DrawerPostings(s, DayDrawers(s, p, date))(i) == AtHome(s, p, date)(i) + StrayedIn(s, p, date)(i)
  {
    var e := s.entries[i];
    assert EntryOk(s, s.entries, e);
    if e.shift.Some? {
      assert DrawerOf(s)(i) == e.shift.value;
    }
  }

  // Over every run from empty books, on whatever days its calls are made: a closed day reconciles exactly when the cash
  // that strayed from its drawers into others is the cash that strayed into them.
  lemma {:induction false} ClosedDaysReconcileExactly(calls: seq<Call>, p: nat, date: int)
    requires var s := Run(EMPTY, calls); p < |s.properties| && s.properties[p].date.Some? && date < s.properties[p].date.value
    ensures var s := Run(EMPTY, calls);
            Sum(DayCash(s, p, date), |s.entries|) == Sum(CountedMovement(s, DayDrawers(s, p, date)), |s.shifts|)
            <==> Sum(StrayedOut(s, p, date), |s.entries|) == Sum(StrayedIn(s, p, date), |s.entries|)
  {
    hide Run;
    var s := Run(EMPTY, calls);
    var n := |s.entries|;
    ReachableBooksKeepInv(calls);
    DayDrawersAreClosed(s, p, date);
    ClosedDrawersReconcile(s, DayDrawers(s, p, date));
    forall i: nat | i < n
      ensures DayCash(s, p, date)(i) == AtHome(s, p, date)(i) + StrayedOut(s, p, date)(i)
      ensures DrawerPostings(s, DayDrawers(s, p, date))(i) == AtHome(s, p, date)(i) + StrayedIn(s, p, date)(i)
    {
      EntryIsAtHomeOrStrayed(s, p, date, i);
    }
    SumPlus(AtHome(s, p, date), StrayedOut(s, p, date), DayCash(s, p, date), n);
    SumPlus(AtHome(s, p, date), StrayedIn(s, p, date), DrawerPostings(s, DayDrawers(s, p, date)), n);
  }

  // ---- a drawer kept open overnight before the first close ----

  // Opened on day 1, paid into on day 2, counted and closed, and day 2 closed: there is no stored date yet, so each row
  // carries the calendar's day.
  const OVERNIGHT :=
    [AddPropertyCall(0, true), AddBookingCall(0, 9, 10, 1000, 0), OpenShiftCall(0, 0, 0, 0, "first", 1),
     PostCall(0, 0, 0, true, Payment, Cash, 500, "", "paid", 2), CloseShiftCall(0, 0, 0, 1, 500, "counted"),
     CloseDayCall(0, 0, 2, 0, "all clear", 0, "night", 2)]

  const GUEST := Booking(0, true, Reserved, 9, 10, 1000, 0, 0, false)
  const OPENED := Shift(0, 0, 0, 1, true, 0, None, 1, "first", None, None)
  const COUNTED := OPENED.(open := false, closeKey := Some("counted"), closedBy := Some(0), declared := Some(500), version := 2)
  const NIGHT_PAID := Paid(500, "paid").(date := 2)

  function Inn(date: Option<int>, entries: seq<Entry>, shifts: seq<Shift>, closes: seq<Close>): Books {
    Books([Property(0, true, true, date, |closes|)], [GUEST], entries, shifts, [], [], closes)
  }

  lemma CashOfTheNight()
    ensures var es := [NIGHT_PAID];
            DrawerCash(es, 0) == 500 && ShiftSize(es, 0) == 1 && FolioSize([], 0) == 0 && NetCharges([], 0) == 0 && NetPayments([], 0) == 0
  {
    assert [] + [NIGHT_PAID] == [NIGHT_PAID];
    DrawerAppend([], NIGHT_PAID, 0);
  }

  lemma InnOpens()
    ensures Run(EMPTY, OVERNIGHT[..3]) == Inn(None, [], [OPENED], [])
  {
    assert OVERNIGHT[..0] == [];
    HotelBooksRuns.RunNone(EMPTY);
    HotelBooksRuns.RunPrefix(EMPTY, OVERNIGHT, 0);
    HotelBooksRuns.RunPrefix(EMPTY, OVERNIGHT, 1);
    HotelBooksRuns.RunPrefix(EMPTY, OVERNIGHT, 2);
    hide Run;
    assert Run(EMPTY, OVERNIGHT[..2]) == Inn(None, [], [], []);
  }

  lemma InnIsPaid()
    ensures Apply(Inn(None, [], [OPENED], []), OVERNIGHT[3]).0 == Inn(None, [NIGHT_PAID], [OPENED], [])
  {
    CashOfTheNight();
    hide FolioSize, NetCharges, NetPayments, EntryByKey;
    var s := Inn(None, [], [OPENED], []);
    assert OpenShiftOf(s.shifts, 0, 0) == Some(0);
    assert EntryByKey([], "paid").None?;
    assert Balance(s, 0) == 1000;
    assert [] + [NIGHT_PAID] == [NIGHT_PAID];
  }

  lemma InnIsCounted()
    ensures Apply(Inn(None, [NIGHT_PAID], [OPENED], []), OVERNIGHT[4]).0 == Inn(None, [NIGHT_PAID], [COUNTED], [])
  {
    CashOfTheNight();
    hide DrawerCash, ShiftSize;
    assert ExpectedCash(Inn(None, [NIGHT_PAID], [OPENED], []), 0) == 500;
  }

  lemma InnNightIsClosed()
    ensures Apply(Inn(None, [NIGHT_PAID], [COUNTED], []), OVERNIGHT[5]).0
            == Inn(Some(3), [NIGHT_PAID], [COUNTED], [Close(0, 2, 3, "night", CloseRequest(2, "all clear", 0, 0))])
  {
    var s := Inn(None, [NIGHT_PAID], [COUNTED], []);
    assert |"all clear"| == 9;
    assert !Blocked(s, 0, 2, 0);
  }

  lemma {:induction false} AfterOvernight()
    ensures Run(EMPTY, OVERNIGHT) == Inn(Some(3), [NIGHT_PAID], [COUNTED], [Close(0, 2, 3, "night", CloseRequest(2, "all clear", 0, 0))])
  {
    hide Run, Apply, Inn;
    assert OVERNIGHT[..6] == OVERNIGHT;
    InnOpens();
    HotelBooksRuns.RunPrefix(EMPTY, OVERNIGHT, 3);
    HotelBooksRuns.RunPrefix(EMPTY, OVERNIGHT, 4);
    HotelBooksRuns.RunPrefix(EMPTY, OVERNIGHT, 5);
    InnIsPaid();
    InnIsCounted();
    InnNightIsClosed();
  }

  // Day 2 is closed with five hundred rupees of cash dated that day and no drawer opened that day.
  lemma {:induction false} OvernightDrawerDoesNotReconcile()
    ensures var s := Run(EMPTY, OVERNIGHT);
            && |s.properties| == 1 && s.properties[0].date == Some(3)
            && Sum(DayCash(s, 0, 2), |s.entries|) == 500 && Sum(CountedMovement(s, DayDrawers(s, 0, 2)), |s.shifts|) == 0
  {
    AfterOvernight();
    hide Run, Apply;
    var s := Run(EMPTY, OVERNIGHT);
    assert Sum(DayCash(s, 0, 2), 1) == Sum(DayCash(s, 0, 2), 0) + DayCash(s, 0, 2)(0);
    assert Sum(CountedMovement(s, DayDrawers(s, 0, 2)), 1)
           == Sum(CountedMovement(s, DayDrawers(s, 0, 2)), 0) + CountedMovement(s, DayDrawers(s, 0, 2))(0);
  }
}

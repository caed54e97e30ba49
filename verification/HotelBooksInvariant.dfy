// What every call keeps true of the hotel books.

module HotelBooksInvariant {
  import opened Common
  import opened Sums
  import opened StatusLogs
  import opened HotelBooks

  ghost predicate Linked(es: seq<Entry>) {
    forall i :: 0 <= i < |es| && es[i].reversalOf.Some? ==> es[i].reversalOf.value < i
  }

  // A reversal mirrors one earlier original of the same folio.
  ghost predicate Mirrors(es: seq<Entry>, e: Entry) {
    e.reversalOf.Some? && e.reversalOf.value < |es|
    && var o := es[e.reversalOf.value];
       o.kind != Reversal && o.booking == e.booking && o.amount == e.amount && o.category == e.category
  }

  ghost predicate EntryOk(s: Books, es: seq<Entry>, e: Entry) {
    && e.booking < |s.bookings|
    && (if e.kind == Reversal then Mirrors(es, e) else e.reversalOf == None)
    && (e.kind == Payment ==> PaymentCategory(e.category))
    && (e.kind == Charge ==> ChargeCategory(e.category) || e.category == Discount)
    && (e.shift.Some? <==> e.kind == Payment || Reverses(es, e, Payment))
    && (e.shift.Some? ==> e.shift.value < |s.shifts| && s.shifts[e.shift.value].property == s.bookings[e.booking].property)
  }

  ghost predicate EntriesOk(s: Books) {
    && Linked(s.entries)
    && (forall i :: 0 <= i < |s.entries| ==> EntryOk(s, s.entries, s.entries[i]))
    && (forall i, j :: 0 <= i < j < |s.entries| ==> s.entries[i].key != s.entries[j].key)
    && (forall i, j :: 0 <= i < j < |s.entries| && s.entries[i].reversalOf.Some? ==> s.entries[i].reversalOf != s.entries[j].reversalOf)
  }

  ghost predicate BookingsOk(s: Books) {
    forall b :: 0 <= b < |s.bookings| ==> s.bookings[b].property < |s.properties|
  }

  ghost predicate ShiftOk(s: Books, k: nat)
    requires k < |s.shifts|
  {
    var t := s.shifts[k];
    && t.property < |s.properties| && t.version >= 1
    && (t.open ==> t.declared == None && t.closeKey == None)
    && (!t.open ==> t.declared == Some(ExpectedCash(s, k)) && t.closeKey.Some?)
  }

  ghost predicate ShiftsOk(s: Books) {
    && (forall k: nat :: k < |s.shifts| ==> ShiftOk(s, k))
    && (forall j, k :: 0 <= j < k < |s.shifts| ==> s.shifts[j].openKey != s.shifts[k].openKey)
    && (forall j, k :: 0 <= j < k < |s.shifts| && s.shifts[j].open ==>
          !ActiveKey(s.shifts[k], s.shifts[j].property, s.shifts[j].actor))
    && (forall j, k :: 0 <= j < k < |s.shifts| && s.shifts[j].closeKey.Some? ==> s.shifts[j].closeKey != s.shifts[k].closeKey)
  }

  // The charge that this posted order put on the folio.
  ghost predicate ChargedBy(s: Books, o: Order) {
    o.folioEntry.Some? && o.folioEntry.value < |s.entries|
    && var e := s.entries[o.folioEntry.value];
       e.kind == Charge && e.category == FolioCategory(o.mode) && e.amount == o.total && e.booking == o.booking && e.date == o.date
  }

  ghost predicate OrderOk(s: Books, o: Order) {
    && o.booking < |s.bookings| && s.bookings[o.booking].property == o.property
    && (if o.status == Posted then ChargedBy(s, o) else o.folioEntry == None)
    && (ActiveOrder(o) ==> s.bookings[o.booking].stay == CheckedIn)
  }

  ghost predicate OrdersOk(s: Books) {
    && (forall i :: 0 <= i < |s.orders| ==> OrderOk(s, s.orders[i]))
    && (forall i, j :: 0 <= i < j < |s.orders| ==> s.orders[i].key != s.orders[j].key)
    && (forall i, j :: 0 <= i < j < |s.orders| && s.orders[i].folioEntry.Some? ==> s.orders[i].folioEntry != s.orders[j].folioEntry)
  }

  // Once a date is stored, whatever is open on the property carries that very date.
  ghost predicate DatesOk(s: Books) {
    && (forall i :: 0 <= i < |s.orders| && ActiveOrder(s.orders[i]) ==> OnDate(s, s.orders[i].property, s.orders[i].date))
    && (forall k :: 0 <= k < |s.shifts| && s.shifts[k].open ==> OnDate(s, s.shifts[k].property, s.shifts[k].date))
  }

  ghost predicate OnDate(s: Books, p: nat, date: int) {
    p < |s.properties| && (s.properties[p].date.Some? ==> s.properties[p].date.value == date)
  }

  // The closes of one property, oldest first.
  function ClosesOf(cs: seq<Close>, p: nat): seq<Close> {
    if cs == [] then []
    else
      var before := ClosesOf(cs[..|cs| - 1], p);
      if cs[|cs| - 1].property == p then before + [cs[|cs| - 1]] else before
  }

  // The closes of a property follow one another day by day up to the stored date.
  ghost predicate Chain(p: Property, closes: seq<Close>) {
    && |closes| == p.dateVersion
    && (forall k :: 0 <= k < |closes| ==> closes[k].date == closes[0].date + k && closes[k].next == closes[k].date + 1)
    && p.date == if closes == [] then None else Some(closes[|closes| - 1].next)
  }

  ghost predicate ClosesOk(s: Books) {
    && (forall p: nat :: p < |s.properties| ==> Chain(s.properties[p], ClosesOf(s.closes, p)))
    && (forall k :: 0 <= k < |s.closes| ==>
          && s.closes[k].property < |s.properties|
          && s.properties[s.closes[k].property].date.Some?
          && s.closes[k].date < s.properties[s.closes[k].property].date.value)
    && (forall j, k :: 0 <= j < k < |s.closes| ==> s.closes[j].key != s.closes[k].key)
  }

  // The moves of one order, oldest first.
  function LogOf(es: seq<Event>, o: nat): seq<Move<OrderStatus>> {
    if es == [] then []
    else
      var before := LogOf(es[..|es| - 1], o);
      var e := es[|es| - 1];
      if e.order == o then before + [Move(e.from, e.to, e.version)] else before
  }

  ghost predicate LogOk(s: Books, o: nat)
    requires o < |s.orders|
  {
    var log := LogOf(s.events, o);
    && Replays(log, Placed, s.orders[o].status, s.orders[o].version)
    && forall k :: 1 <= k < |log| ==> log[k].to in NextStatuses(s.orders[o].mode, log[k - 1].to)
  }

  ghost predicate EventOk(s: Books, e: Event) {
    && e.order < |s.orders|
    && (e.request.MoveRequest? ==> e.request.order == e.order && e.request.partner == s.orders[e.order].partner)
    && (e.request.PlaceRequest? ==> e.request.placed == s.orders[e.order].request)
  }

  ghost predicate EventsOk(s: Books) {
    && (forall o: nat :: o < |s.orders| ==> LogOk(s, o))
    && (forall k :: 0 <= k < |s.events| ==> EventOk(s, s.events[k]))
    && (forall j, k :: 0 <= j < k < |s.events| ==> s.events[j].key != s.events[k].key)
  }

  ghost predicate Inv(s: Books) {
    EntriesOk(s) && BookingsOk(s) && ShiftsOk(s) && OrdersOk(s) && DatesOk(s) && ClosesOk(s) && EventsOk(s)
  }

  // ---- appending an entry ----

  lemma {:induction false} DrawerAppend(es: seq<Entry>, e: Entry, k: nat)
    requires Linked(es) && Linked(es + [e])
    ensures DrawerCash(es + [e], k) == DrawerCash(es, k) + if e.shift == Some(k) then CashEffect(es, e) else 0
  {
    var f, g := CashTerm(es, k), CashTerm(es + [e], k);
    SumSame(f, g, |es|);
    assert g(|es|) == if e.shift == Some(k) then CashEffect(es, e) else 0;
  }

  lemma {:induction false} ChargesAppend(es: seq<Entry>, e: Entry, b: nat)
    requires Linked(es) && Linked(es + [e])
    ensures NetCharges(es + [e], b) == NetCharges(es, b) + if e.booking == b then ChargeEffect(es, e) else 0
  {
    var f, g := ChargeTerm(es, b), ChargeTerm(es + [e], b);
    SumSame(f, g, |es|);
    assert g(|es|) == if e.booking == b then ChargeEffect(es, e) else 0;
  }

  lemma {:induction false} PaymentsAppend(es: seq<Entry>, e: Entry, b: nat)
    requires Linked(es) && Linked(es + [e])
    ensures NetPayments(es + [e], b) == NetPayments(es, b) + if e.booking == b then PaymentEffect(es, e) else 0
  {
    var f, g := PaymentTerm(es, b), PaymentTerm(es + [e], b);
    SumSame(f, g, |es|);
    assert g(|es|) == if e.booking == b then PaymentEffect(es, e) else 0;
  }

  // An entry that may be added: fresh key, its original not yet reversed, its shift open.
  ghost predicate MayAppend(s: Books, e: Entry) {
    && EntryOk(s, s.entries, e)
    && (forall i :: 0 <= i < |s.entries| ==> s.entries[i].key != e.key)
    && (e.reversalOf.Some? ==> !IsReversed(s.entries, e.reversalOf.value))
    && (e.shift.Some? ==> s.shifts[e.shift.value].open)
  }

  lemma AppendKeepsEntries(s: Books, e: Entry)
    requires EntriesOk(s) && MayAppend(s, e)
    ensures EntriesOk(s.(entries := s.entries + [e]))
  {
    var s' := s.(entries := s.entries + [e]);
    assert s'.entries[|s.entries|] == e;
    forall i | 0 <= i < |s'.entries| ensures EntryOk(s', s'.entries, s'.entries[i]) {
      if i < |s.entries| {
        assert s'.entries[i] == s.entries[i];
        assert EntryOk(s, s.entries, s.entries[i]);
      }
    }
  }

  lemma AppendKeepsInv(s: Books, e: Entry)
    requires Inv(s) && MayAppend(s, e)
    ensures Inv(s.(entries := s.entries + [e]))
  {
    var s' := s.(entries := s.entries + [e]);
    AppendKeepsEntries(s, e);
    forall k: nat | k < |s'.shifts| ensures ShiftOk(s', k) {
      assert ShiftOk(s, k);
      DrawerAppend(s.entries, e, k);
    }
    forall i | 0 <= i < |s'.orders| ensures OrderOk(s', s'.orders[i]) {
      assert OrderOk(s, s.orders[i]);
    }
    forall o: nat | o < |s'.orders| ensures LogOk(s', o) {
      assert LogOk(s, o);
    }
    forall k | 0 <= k < |s'.events| ensures EventOk(s', s'.events[k]) {
      assert EventOk(s, s.events[k]);
    }
  }
}

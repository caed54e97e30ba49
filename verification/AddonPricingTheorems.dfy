// Amending a stay never lets its extras drift from what a fresh quote would charge.

module AddonPricingTheorems {
  import opened Common
  import opened Sums
  import opened AddonPricing

  lemma {:induction false} ExactQuotient(k: nat, b: nat)
    requires b > 0
    ensures RoundedQuotient(k * b, b) == k
  {
    assert 2 * (k * b) + b == k * (2 * b) + b;
    QuotientOf(k, 2 * b, b);
  }

  lemma TimesMonotone(a: int, b: int, n: int)
    requires a <= b && n >= 0
    ensures a * n <= b * n
  {
  }

  lemma {:induction false} QuotientOf(k: nat, d: nat, rest: nat)
    requires rest < d
    ensures (k * d + rest) / d == k
  {
    var x := k * d + rest;
    var q := x / d;
    assert x == q * d + x % d;
    if q < k {
      TimesMonotone(q + 1, k, d);
    } else if q > k {
      TimesMonotone(k + 1, q, d);
    }
  }

  // Within half a unit of the exact quotient, halves going up.
  lemma QuotientWithinHalf(a: nat, b: nat)
    requires b > 0
    ensures 2 * a - b < 2 * (b * RoundedQuotient(a, b)) <= 2 * a + b
  {
    var d := 2 * b;
    var q := (2 * a + b) / d;
    assert 2 * a + b == q * d + (2 * a + b) % d;
    assert q * d == 2 * (b * q);
  }

  // Of a nightly mode, the multiplier for one night times the nights; of any other, the same for every stay.
  lemma MultiplierIsLinear(mode: Mode, party: Party, nights: nat, quantity: nat)
    ensures Multiplier(mode, party, nights, quantity)
            == if Nightly(mode) then Multiplier(mode, party, 1, quantity) * nights else Multiplier(mode, party, 1, quantity)
  {
    var guests := party.adults + party.children;
    assert (party.rooms * nights) * quantity == (party.rooms * 1 * quantity) * nights;
    assert (guests * nights) * quantity == (guests * 1 * quantity) * nights;
    assert nights * quantity == (1 * quantity) * nights;
  }

  // Amending a fresh charge gives the fresh charge for the new nights.
  lemma {:induction false} AmendedChargeIsFresh(a: Addon, id: nat, quantity: nat, party: Party, oldNights: nat, nights: nat)
    requires oldNights > 0
    ensures AmendedCharge(ChargeFor(a, id, quantity, party, oldNights), oldNights, nights) == ChargeFor(a, id, quantity, party, nights)
  {
    MultiplierIsLinear(a.mode, party, oldNights, quantity);
    MultiplierIsLinear(a.mode, party, nights, quantity);
    if Nightly(a.mode) {
      var m, u := Multiplier(a.mode, party, 1, quantity), a.unit;
      Regrouped(u, m, oldNights, nights);
      ExactQuotient(u * (m * nights), oldNights);
    }
  }

  lemma Regrouped(u: nat, m: nat, former: nat, nights: nat)
    ensures u * (m * former) * nights == u * (m * nights) * former
  {
    calc {
      u * (m * former) * nights;
      (u * m) * former * nights;
      (u * m) * (former * nights);
      (u * m) * (nights * former);
      (u * m) * nights * former;
      u * (m * nights) * former;
    }
  }

  lemma {:induction false} ChargesAreChargeable(addons: map<nat, Addon>, selections: seq<Selection>, party: Party, nights: nat)
    requires forall i :: 0 <= i < |selections| ==> Available(addons, selections[i])
    ensures Chargeable(Charges(addons, selections, party, nights))
  {
    if selections != [] {
      ChargesAreChargeable(addons, selections[..|selections| - 1], party, nights);
    }
  }

  // Amending a charge together with its tax, after whatever stands before it.
  lemma {:induction false} AmendedPair(before: seq<Component>, charge: Component, oldNights: nat, nights: nat)
    requires Chargeable(before) && charge.kind == AddonCharge && charge.amount >= 0 && oldNights > 0
    ensures Chargeable(before + WithTax(charge))
    ensures AmendedAddons(before + WithTax(charge), oldNights, nights)
            == AmendedAddons(before, oldNights, nights) + WithTax(AmendedCharge(charge, oldNights, nights))
  {
    var cs := before + WithTax(charge);
    assert (before + [charge])[..|before|] == before;
    if |WithTax(charge)| == 2 {
      assert cs[..|before| + 1] == before + [charge];
      assert cs[..|cs| - 1] == before + [charge];
    } else {
      assert cs == before + [charge];
    }
  }

  lemma {:induction false} AmendedChargesAreFresh(addons: map<nat, Addon>, selections: seq<Selection>, party: Party, oldNights: nat, nights: nat)
    requires (forall i :: 0 <= i < |selections| ==> Available(addons, selections[i])) && oldNights > 0
    ensures Chargeable(Charges(addons, selections, party, oldNights))
    ensures AmendedAddons(Charges(addons, selections, party, oldNights), oldNights, nights) == Charges(addons, selections, party, nights)
  {
    ChargesAreChargeable(addons, selections, party, oldNights);
    if selections != [] {
      var before, last := selections[..|selections| - 1], selections[|selections| - 1];
      AmendedChargesAreFresh(addons, before, party, oldNights, nights);
      var charge := ChargeFor(addons[last.addon], last.addon, last.quantity, party, oldNights);
      AmendedPair(Charges(addons, before, party, oldNights), charge, oldNights, nights);
      AmendedChargeIsFresh(addons[last.addon], last.addon, last.quantity, party, oldNights, nights);
    }
  }

  // ---- what a quote charges ----

  // How many times the unit price is charged for one of a selection.
  ghost predicate CountedBy(count: nat, mode: Mode, party: Party, nights: nat) {
    && (mode == PerBooking ==> count == 1)
    && (mode == PerNight ==> count == nights)
    && (mode == PerRoom ==> count == party.rooms)
    && (mode == PerRoomPerNight ==> count == party.rooms * nights)
    && (mode == PerGuest ==> count == party.adults + party.children)
    && (mode == PerGuestPerNight ==> count == (party.adults + party.children) * nights)
  }

  // The components of one selection: the charge, and its tax to the nearest rupee if that is not nothing.
  ghost predicate ChargedFor(cs: seq<Component>, sel: Selection, addon: Addon, party: Party, nights: nat) {
    && 1 <= |cs| <= 2 && sel.quantity >= 0
    && cs[0].kind == AddonCharge && cs[0].addon == sel.addon && cs[0].quantity == sel.quantity
    && cs[0].unit == addon.unit && cs[0].mode == addon.mode && cs[0].taxRate == addon.taxRate
    && (exists count: nat :: CountedBy(count, addon.mode, party, nights) && cs[0].amount == addon.unit * (count * sel.quantity))
    && var exact := cs[0].amount * addon.taxRate;
       && (|cs| == 1 <==> 2 * exact < 10_000)
       && (|cs| == 2 ==> cs[1] == cs[0].(kind := AddonTax, amount := cs[1].amount)
                         && 2 * exact - 10_000 < 20_000 * cs[1].amount <= 2 * exact + 10_000)
  }

  lemma TaxIsNearest(charge: Component)
    requires charge.amount >= 0
    ensures var cs, exact := WithTax(charge), charge.amount * charge.taxRate;
            && 1 <= |cs| <= 2 && cs[0] == charge && (|cs| == 1 <==> 2 * exact < 10_000)
            && (|cs| == 2 ==> cs[1] == charge.(kind := AddonTax, amount := cs[1].amount)
                              && 2 * exact - 10_000 < 20_000 * cs[1].amount <= 2 * exact + 10_000)
  {
    var exact := charge.amount * charge.taxRate;
    assert exact >= 0;
    QuotientWithinHalf(exact, 10_000);
  }

  lemma ChargeIsCounted(sel: Selection, addon: Addon, party: Party, nights: nat)
    requires sel.quantity >= 0
    ensures ChargedFor(WithTax(ChargeFor(addon, sel.addon, sel.quantity, party, nights)), sel, addon, party, nights)
  {
    var charge := ChargeFor(addon, sel.addon, sel.quantity, party, nights);
    TaxIsNearest(charge);
    var guests := party.adults + party.children;
    var count: nat := match addon.mode
      case PerBooking => 1
      case PerNight => nights
      case PerRoom => party.rooms
      case PerRoomPerNight => party.rooms * nights
      case PerGuest => guests
      case PerGuestPerNight => guests * nights;
    assert CountedBy(count, addon.mode, party, nights);
    assert charge.amount == addon.unit * (count * sel.quantity);
  }

  // The components of a quote, selection by selection.
  ghost predicate ChargedInOrder(cs: seq<Component>, addons: map<nat, Addon>, selections: seq<Selection>, party: Party, nights: nat) {
    if selections == [] then cs == []
    else
      exists n: nat :: ChargedLast(cs, n, addons, selections, party, nights)
                       && ChargedInOrder(cs[..n], addons, selections[..|selections| - 1], party, nights)
  }

  ghost predicate ChargedLast(cs: seq<Component>, n: nat, addons: map<nat, Addon>, selections: seq<Selection>, party: Party, nights: nat)
    requires selections != []
  {
    var last := selections[|selections| - 1];
    n <= |cs| && last.addon in addons && ChargedFor(cs[n..], last, addons[last.addon], party, nights)
  }

  lemma {:induction false} ChargesAreInOrder(addons: map<nat, Addon>, selections: seq<Selection>, party: Party, nights: nat)
    requires forall i :: 0 <= i < |selections| ==> Available(addons, selections[i])
    ensures ChargedInOrder(Charges(addons, selections, party, nights), addons, selections, party, nights)
  {
    if selections != [] {
      var before, last := selections[..|selections| - 1], selections[|selections| - 1];
      ChargesAreInOrder(addons, before, party, nights);
      var cs, earlier := Charges(addons, selections, party, nights), Charges(addons, before, party, nights);
      assert Available(addons, last);
      ChargeIsCounted(last, addons[last.addon], party, nights);
      assert cs[|earlier|..] == WithTax(ChargeFor(addons[last.addon], last.addon, last.quantity, party, nights));
      assert ChargedLast(cs, |earlier|, addons, selections, party, nights);
      assert cs[..|earlier|] == earlier;
    }
  }

  // A quote succeeds exactly for at most twenty selections of different extras, each available within its quantities, and
  // then charges every selection, in order: unit price by quantity by what its mode counts, and the tax on that.
  lemma {:induction false} QuotesChargeByTheMode(addons: map<nat, Addon>, selections: seq<Selection>, party: Party, nights: nat)
    ensures var r := QuoteAddons(addons, selections, party, nights);
            && (r.Success? <==>
                  && |selections| <= 20
                  && (forall i, j :: 0 <= i < j < |selections| ==> selections[i].addon != selections[j].addon)
                  && (forall i :: 0 <= i < |selections| ==>
                        && selections[i].addon in addons && selections[i].quantity >= 0
                        && addons[selections[i].addon].minimum <= selections[i].quantity <= addons[selections[i].addon].maximum))
            && (r.Success? ==> ChargedInOrder(r.value, addons, selections, party, nights))
  {
    if QuoteAddons(addons, selections, party, nights).Success? {
      assert forall i :: 0 <= i < |selections| ==> Available(addons, selections[i]);
      ChargesAreInOrder(addons, selections, party, nights);
    }
  }

  // ---- over any sequence of amendments ----

  datatype Amendment = Amendment(plan: Plan, nights: nat)

  ghost predicate Stays(steps: seq<Amendment>) { forall i :: 0 <= i < |steps| ==> steps[i].nights > 0 }

  // Every amended quote on the way keeps its charges at or above zero.
  ghost function Amendments(q: Quote, steps: seq<Amendment>): (r: Quote)
    requires q.nights > 0 && Chargeable(q.addons) && Stays(steps)
    ensures r.nights > 0 && Chargeable(r.addons) && r.rooms == q.rooms
    ensures steps != [] ==> r.nights == steps[|steps| - 1].nights
    ensures steps == [] ==> r == q
  {
    if steps == [] then q
    else
      var before := Amendments(q, steps[..|steps| - 1]);
      AmendedStayChargeable(before.addons, before.nights, steps[|steps| - 1].nights);
      Amended(before, steps[|steps| - 1].plan, steps[|steps| - 1].nights)
  }

  lemma {:induction false} AmendedStayChargeable(cs: seq<Component>, oldNights: nat, nights: nat)
    requires Chargeable(cs) && oldNights > 0
    ensures Chargeable(AmendedAddons(cs, oldNights, nights))
  {
    if cs != [] {
      AmendedStayChargeable(cs[..|cs| - 1], oldNights, nights);
    }
  }

  // However often a stay is amended, its extras and their taxes are those of a fresh quote for the nights it now has.
  lemma {:induction false} AddonsNeverDrift(addons: map<nat, Addon>, selections: seq<Selection>, party: Party, q: Quote, steps: seq<Amendment>)
    requires q.nights > 0 && Chargeable(q.addons) && Stays(steps)
    requires QuoteAddons(addons, selections, party, q.nights) == Success(q.addons)
    ensures QuoteAddons(addons, selections, party, Amendments(q, steps).nights) == Success(Amendments(q, steps).addons)
  {
    if steps != [] {
      var before, last := Amendments(q, steps[..|steps| - 1]), steps[|steps| - 1];
      AddonsNeverDrift(addons, selections, party, q, steps[..|steps| - 1]);
      assert QuoteAddons(addons, selections, party, before.nights) == Success(before.addons);
      if selections != [] {
        AmendedChargesAreFresh(addons, selections, party, before.nights, last.nights);
      }
    }
  }

  // The whole amended price is the fresh price under the same plan exactly when no calendar sets another charge for the
  // stay: amendments go by the nightly rate alone.
  lemma {:induction false} AmendedPriceIsFreshExactlyWithoutCalendar(addons: map<nat, Addon>, selections: seq<Selection>, party: Party, q: Quote,
                                                  steps: seq<Amendment>, calendar: Option<int>)
    requires q.nights > 0 && Chargeable(q.addons) && Stays(steps) && steps != [] && party.rooms > 0 && q.rooms == party.rooms
    requires QuoteAddons(addons, selections, party, q.nights) == Success(q.addons)
    ensures var amended, plan := Amendments(q, steps), steps[|steps| - 1].plan;
            var extras := QuoteAddons(addons, selections, party, amended.nights);
            && extras.Success?
            && (Total(amended) == Total(FreshQuote(plan, calendar, party, amended.nights, extras.value))
                <==> calendar.None? || calendar.value == plan.nightly * amended.nights)
  {
    AddonsNeverDrift(addons, selections, party, q, steps);
    var amended, plan := Amendments(q, steps), steps[|steps| - 1].plan;
    if calendar.Some? && calendar.value != plan.nightly * amended.nights {
      TimesDiffers(calendar.value, plan.nightly * amended.nights, party.rooms);
    }
  }

  // Two nights under a calendar charge of 3000 are amended to three, for which the calendar says 4500: the amended price
  // goes by the nightly rate of 1000.
  lemma CalendarChargeIsLost()
    ensures var plan, party := Plan(1000, 0), Party(2, 0, 1);
            var quoted := FreshQuote(plan, Some(3000), party, 2, []);
            && Total(Amended(quoted, plan, 3)) == 3000 && Total(FreshQuote(plan, Some(4500), party, 3, [])) == 4500
  {
  }

  lemma TimesDiffers(a: int, b: int, n: nat)
    requires a != b && n > 0
    ensures a * n != b * n
  {
    if a > b {
      TimesMonotone(b + 1, a, n);
    } else {
      TimesMonotone(a + 1, b, n);
    }
  }

  // ---- what an amendment asks for, and what it costs ----

  lemma {:induction false} TotalIsTheSum(cs: seq<Component>)
    ensures TotalOf(cs) == Sum(Amounts(cs), |cs|)
  {
    if cs != [] {
      var before := cs[..|cs| - 1];
      TotalIsTheSum(before);
      SumSame(Amounts(before), Amounts(cs), |before|);
    }
  }

  function Amounts(cs: seq<Component>): nat -> int { (i: nat) => if i < |cs| then cs[i].amount else 0 }

  // The amended price: the nightly rate and the fees for the new nights and the rooms of the stay, and the extras.
  lemma {:induction false} AmendedTotal(q: Quote, plan: Plan, nights: nat)
    requires Chargeable(q.addons) && q.nights > 0
    ensures var amended := Amended(q, plan, nights);
            && amended.nights == nights && amended.rooms == q.rooms
            && amended.roomCharge == plan.nightly * nights * q.rooms && amended.fees == plan.fees * nights * q.rooms
            && Total(amended) == (plan.nightly + plan.fees) * nights * q.rooms + Sum(Amounts(amended.addons), |amended.addons|)
  {
    var amended := Amended(q, plan, nights);
    TotalIsTheSum(amended.addons);
    Distributes(plan.nightly, plan.fees, nights, q.rooms);
  }

  lemma Distributes(a: int, b: int, n: int, r: int)
    ensures (a + b) * n * r == a * n * r + b * n * r
  {
    assert (a + b) * n == a * n + b * n;
  }

  // An amendment is refused exactly when some extra that was charged can no longer be had.
  lemma AmendmentsAskForTheirExtras(cs: seq<Component>, available: set<nat>)
    ensures StillAvailable(cs, available) <==> !exists i :: 0 <= i < |cs| && cs[i].kind == AddonCharge && cs[i].addon !in available
  {
  }
}

// The price of a hotel stay with its selected extras, first quoted and then amended to other nights, in whole rupees.

module AddonPricing {
  import opened Common

  datatype Mode = PerBooking | PerNight | PerRoom | PerRoomPerNight | PerGuest | PerGuestPerNight
  datatype Addon = Addon(unit: nat, mode: Mode, taxRate: nat, minimum: int, maximum: int)
  datatype Selection = Selection(addon: nat, quantity: int)
  datatype Party = Party(adults: nat, children: nat, rooms: nat)

  datatype Kind = AddonCharge | AddonTax
  datatype Component = Component(kind: Kind, amount: int, mode: Mode, quantity: int, addon: nat, taxRate: nat, unit: nat)

  // The rate plan as it stands when the price is made, per room and night.
  datatype Plan = Plan(nightly: nat, fees: nat)
  datatype Quote = Quote(nights: nat, rooms: nat, roomCharge: int, fees: int, addons: seq<Component>)

  datatype Error = InvalidSelection | AddonNotAvailable
  datatype Result<T> = Success(value: T) | Failure(error: Error)

  const FULL := 10_000

  // The nearest whole number, halves up.
  function RoundedQuotient(a: nat, b: nat): nat
    requires b > 0
  {
    (2 * a + b) / (2 * b)
  }

  predicate Nightly(mode: Mode) { mode in {PerNight, PerRoomPerNight, PerGuestPerNight} }

  function Multiplier(mode: Mode, party: Party, nights: nat, quantity: nat): nat {
    (match mode
     case PerBooking => 1
     case PerNight => nights
     case PerRoom => party.rooms
     case PerRoomPerNight => party.rooms * nights
     case PerGuest => party.adults + party.children
     case PerGuestPerNight => (party.adults + party.children) * nights) * quantity
  }

  function TaxOn(amount: nat, rate: nat): nat { RoundedQuotient(amount * rate, FULL) }

  // A charge with its tax, if there is any.
  function WithTax(charge: Component): seq<Component>
    requires charge.amount >= 0
  {
    var tax := TaxOn(charge.amount, charge.taxRate);
    if tax > 0 then [charge, charge.(kind := AddonTax, amount := tax)] else [charge]
  }

  function ChargeFor(a: Addon, id: nat, quantity: nat, party: Party, nights: nat): Component {
    Component(AddonCharge, a.unit * Multiplier(a.mode, party, nights, quantity), a.mode, quantity, id, a.taxRate, a.unit)
  }

  predicate Available(addons: map<nat, Addon>, sel: Selection) {
    sel.addon in addons && 0 <= sel.quantity && addons[sel.addon].minimum <= sel.quantity <= addons[sel.addon].maximum
  }

  predicate Repeats(selections: seq<Selection>) {
    exists i, j :: 0 <= i < j < |selections| && selections[i].addon == selections[j].addon
  }

  // What a fresh quote charges for the selected extras.
  function Charges(addons: map<nat, Addon>, selections: seq<Selection>, party: Party, nights: nat): seq<Component>
    requires forall i :: 0 <= i < |selections| ==> Available(addons, selections[i])
  {
    if selections == [] then []
    else
      var last := selections[|selections| - 1];
      assert Available(addons, last);
      Charges(addons, selections[..|selections| - 1], party, nights)
      + WithTax(ChargeFor(addons[last.addon], last.addon, last.quantity, party, nights))
  }

  function QuoteAddons(addons: map<nat, Addon>, selections: seq<Selection>, party: Party, nights: nat): Result<seq<Component>> {
    if selections == [] then Success([])
    else if |selections| > 20 || Repeats(selections) then Failure(InvalidSelection)
    else if exists i :: 0 <= i < |selections| && !Available(addons, selections[i]) then Failure(AddonNotAvailable)
    else Success(Charges(addons, selections, party, nights))
  }

  // A calendar may set its own charge for the whole stay of a room.
  function FreshQuote(plan: Plan, calendar: Option<int>, party: Party, nights: nat, addons: seq<Component>): Quote {
    Quote(nights, party.rooms,
          (if calendar.Some? then calendar.value else plan.nightly * nights) * party.rooms,
          plan.fees * nights * party.rooms, addons)
  }

  // ---- amending ----

  function AmendedCharge(charge: Component, oldNights: nat, nights: nat): Component
    requires charge.amount >= 0 && oldNights > 0
  {
    charge.(amount := if Nightly(charge.mode) then RoundedQuotient(charge.amount * nights, oldNights) else charge.amount)
  }

  ghost predicate Chargeable(cs: seq<Component>) { forall i :: 0 <= i < |cs| ==> cs[i].amount >= 0 }

  // Charges are recomputed from what they were, taxes from the new charges; the old taxes go.
  function AmendedAddons(cs: seq<Component>, oldNights: nat, nights: nat): seq<Component>
    requires Chargeable(cs) && oldNights > 0
  {
    if cs == [] then []
    else
      var last := cs[|cs| - 1];
      AmendedAddons(cs[..|cs| - 1], oldNights, nights)
      + if last.kind == AddonCharge then WithTax(AmendedCharge(last, oldNights, nights)) else []
  }

  function Amended(q: Quote, plan: Plan, nights: nat): Quote
    requires Chargeable(q.addons) && q.nights > 0
  {
    Quote(nights, q.rooms, plan.nightly * nights * q.rooms, plan.fees * nights * q.rooms, AmendedAddons(q.addons, q.nights, nights))
  }

  // Every extra that was charged can still be had for the new dates.
  predicate StillAvailable(cs: seq<Component>, available: set<nat>) {
    forall i :: 0 <= i < |cs| && cs[i].kind == AddonCharge ==> cs[i].addon in available
  }

  function TotalOf(cs: seq<Component>): int {
    if cs == [] then 0 else TotalOf(cs[..|cs| - 1]) + cs[|cs| - 1].amount
  }

  function Total(q: Quote): int { q.roomCharge + q.fees + TotalOf(q.addons) }
}

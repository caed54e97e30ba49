// The loops that quote and reprice the extras of a stay.

module AddonPricingService {
  import opened Common
  import opened AddonPricing

  // Checks the whole selection, then pushes a charge and its tax for each extra.
  method QuoteSelection(addons: map<nat, Addon>, selections: seq<Selection>, party: Party, nights: nat) returns (r: Result<seq<Component>>)
    ensures r == QuoteAddons(addons, selections, party, nights)
  {
    if selections == [] {
      return Success([]);
    }
    if |selections| > 20 {
      return Failure(InvalidSelection);
    }
    var seen: set<nat>, repeats := {}, false;
    for i := 0 to |selections|
      invariant forall id: nat :: id in seen <==> exists k :: 0 <= k < i && selections[k].addon == id
      invariant repeats <==> exists j, k :: 0 <= j < k < i && selections[j].addon == selections[k].addon
    {
      if selections[i].addon in seen {
        repeats := true;
      }
      seen := seen + {selections[i].addon};
    }
    if repeats {
      return Failure(InvalidSelection);
    }
    var components: seq<Component> := [];
    for i := 0 to |selections|
      invariant forall k :: 0 <= k < i ==> Available(addons, selections[k])
      invariant components == Charges(addons, selections[..i], party, nights)
    {
      assert selections[..i + 1][..i] == selections[..i];
      var sel := selections[i];
      if sel.addon !in addons || sel.quantity < 0 || sel.quantity < addons[sel.addon].minimum || sel.quantity > addons[sel.addon].maximum {
        return Failure(AddonNotAvailable);
      }
      var a := addons[sel.addon];
      var amount := a.unit * Multiplier(a.mode, party, nights, sel.quantity);
      var charge := Component(AddonCharge, amount, a.mode, sel.quantity, sel.addon, a.taxRate, a.unit);
      components := components + [charge];
      var tax := TaxOn(amount, a.taxRate);
      if tax > 0 {
        components := components + [charge.(kind := AddonTax, amount := tax)];
      }
      assert components == Charges(addons, selections[..i], party, nights) + WithTax(charge);
    }
    assert selections[..|selections|] == selections;
    return Success(components);
  }

  // Refused when an extra is no longer to be had; otherwise the amended components, old charges one by one, their taxes anew.
  method Reprice(q: Quote, plan: Plan, nights: nat, available: set<nat>) returns (r: Result<Quote>)
    requires Chargeable(q.addons) && q.nights > 0
    ensures r == if StillAvailable(q.addons, available) then Success(Amended(q, plan, nights)) else Failure(AddonNotAvailable)
  {
    for i := 0 to |q.addons|
      invariant StillAvailable(q.addons[..i], available)
    {
      if q.addons[i].kind == AddonCharge && q.addons[i].addon !in available {
        return Failure(AddonNotAvailable);
      }
      assert q.addons[..i + 1] == q.addons[..i] + [q.addons[i]];
    }
    assert q.addons[..|q.addons|] == q.addons;
    var components: seq<Component> := [];
    for i := 0 to |q.addons|
      invariant components == AmendedAddons(q.addons[..i], q.nights, nights)
    {
      assert q.addons[..i + 1][..i] == q.addons[..i];
      var c := q.addons[i];
      if c.kind == AddonCharge {
        var amount := if Nightly(c.mode) then RoundedQuotient(c.amount * nights, q.nights) else c.amount;
        var tax := TaxOn(amount, c.taxRate);
        components := components + if tax > 0 then [c.(amount := amount), c.(kind := AddonTax, amount := tax)] else [c.(amount := amount)];
      }
    }
    return Success(Quote(nights, q.rooms, plan.nightly * nights * q.rooms, plan.fees * nights * q.rooms, components));
  }
}

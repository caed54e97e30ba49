// The banquet service on its tables changed in place.

module BanquetVenuesStore {
  import opened Common
  import opened Lookup
  import opened BanquetVenues

  class Store {
    var properties: seq<Property>
    var banquets: seq<Banquet>
    var history: seq<Entry>

    ghost function Contents(): State
      reads this
    {
      State(properties, banquets, history)
    }

    constructor ()
      ensures Contents() == EMPTY
    {
      properties, banquets, history := [], [], [];
    }

    method AddProperty(partner: nat)
      modifies this
      ensures Contents() == Apply(old(Contents()), PropertyCall(partner)).0
    {
      properties := properties + [Property(partner, true, None)];
    }

    method FindEntry(key: string) returns (found: Option<nat>)
      ensures found == EntryByKey(history, key)
    {
      found := FindLast(history, WithEntryKey(key));
    }

    method FindEvent(key: string) returns (found: Option<nat>)
      ensures found == EventByKey(banquets, key)
    {
      found := FindLast(banquets, WithEventKey(key));
    }

    // Looks for a provisional or confirmed event that keeps the venue during some of the time.
    method VenueTaken(event: nat) returns (taken: bool)
      requires event < |banquets|
      ensures taken <==> Conflict(Contents(), event)
    {
      taken := false;
      var b := banquets[event];
      for i := 0 to |banquets|
        invariant taken <==> exists k :: 0 <= k < i && k != event && Holds(banquets[k]) && banquets[k].property == b.property
                                         && SameVenue(banquets[k].details, b.details) && Overlap(banquets[k].details, b.details)
      {
        var other := banquets[i];
        if i != event && other.status in {Provisional, Confirmed} && other.property == b.property
           && other.details.date == b.details.date && other.details.venue == b.details.venue
           && other.details.end > b.details.start && other.details.start < b.details.end {
          taken := true;
        }
      }
    }

    method Create(partner: nat, property: nat, details: Details, wellFormed: bool, today: int, key: string) returns (reply: Reply)
      modifies this
      ensures (Contents(), reply) == BanquetVenues.Create(old(Contents()), CreateCall(partner, property, details, wellFormed, today, key))
    {
      if |key| < 16 || |key| > 96 {
        return Refused(InvalidKey);
      }
      if details.start < 0 || details.end <= details.start || details.end >= 1440 {
        return Refused(InvalidWindow);
      }
      if !wellFormed {
        return Refused(InvalidEvent);
      }
      var found := FindEvent(key);
      if found.Some? {
        var b := banquets[found.value];
        if b.partner != partner || b.property != property || b.details != details {
          return Refused(KeyReused);
        }
        return EventReply(found.value);
      }
      if property >= |properties| || properties[property].partner != partner || !properties[property].active {
        return Refused(PropertyNotFound);
      }
      var stored := properties[property].date;
      if details.date < (if stored.Some? then stored.value else today) {
        return Refused(DatePassed);
      }
      var entry := FindEntry(key);
      if entry.Some? {
        return Refused(UniqueViolation);
      }
      var id := |banquets|;
      banquets := banquets + [Banquet(partner, property, details, Inquiry, 1, key)];
      history := history + [Entry(id, None, Inquiry, 1, key, CreateRequest(partner, property, details))];
      return EventReply(id);
    }

    method Move(partner: nat, event: nat, target: Option<Status>, note: string, version: int, key: string) returns (reply: Reply)
      modifies this
      ensures (Contents(), reply) == BanquetVenues.Move(old(Contents()), MoveCall(partner, event, target, note, version, key))
    {
      if |key| < 16 || |key| > 96 {
        return Refused(InvalidKey);
      }
      if version < 1 {
        return Refused(StaleEvent);
      }
      var request := MoveRequest(event, note, partner, target, version);
      var found := FindEntry(key);
      if found.Some? {
        var h := history[found.value];
        if h.request != request {
          return Refused(KeyReused);
        }
        if h.event >= |banquets| || banquets[h.event].partner != partner {
          return Refused(EventNotFound);
        }
        return EventReply(h.event);
      }
      if event >= |banquets| || banquets[event].partner != partner {
        return Refused(EventNotFound);
      }
      var b := banquets[event];
      if b.property >= |properties| || properties[b.property].partner != partner || !properties[b.property].active {
        return Refused(PropertyNotFound);
      }
      if b.version != version {
        return Refused(StaleEvent);
      }
      if target.None? || target.value !in Next(b.status) {
        return Refused(InvalidTransition);
      }
      if target.value == Cancelled && |note| < 8 {
        return Refused(ReasonRequired);
      }
      if target.value == Provisional || target.value == Confirmed {
        var taken := VenueTaken(event);
        if taken {
          return Refused(VenueConflict);
        }
      }
      banquets := banquets[event := b.(status := target.value, version := b.version + 1)];
      history := history + [Entry(event, Some(b.status), target.value, b.version + 1, key, request)];
      return EventReply(event);
    }
  }
}

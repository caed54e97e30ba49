// Banquet events of managed hotels and the history of their status. Dates are day numbers, times minutes of the day.

module BanquetVenues {
  import opened Common
  import opened Lookup

  datatype Status = Inquiry | Provisional | Confirmed | Completed | Cancelled
  datatype Property = Property(partner: nat, active: bool, date: Option<int>)

  // The description of an event as it was requested; details stands for its texts and amounts.
  datatype Details = Details(date: int, start: int, end: int, venue: string, details: string)
  datatype Request =
    | CreateRequest(partner: nat, property: nat, details: Details)
    | MoveRequest(event: nat, note: string, partner: nat, target: Option<Status>, version: int)

  datatype Banquet = Banquet(partner: nat, property: nat, details: Details, status: Status, version: nat, key: string)
  datatype Entry = Entry(event: nat, from: Option<Status>, to: Status, version: nat, key: string, request: Request)

  datatype State = State(properties: seq<Property>, banquets: seq<Banquet>, history: seq<Entry>)

  datatype Call =
    | PropertyCall(partner: nat)
    | EnvironmentCall(property: nat, active: bool, date: Option<int>)
    | CreateCall(partner: nat, property: nat, details: Details, wellFormed: bool, today: int, key: string)
    | MoveCall(partner: nat, event: nat, target: Option<Status>, note: string, version: int, key: string)

  datatype Error =
    | InvalidKey | InvalidWindow | InvalidEvent | KeyReused | PropertyNotFound | DatePassed | UniqueViolation
    | StaleEvent | EventNotFound | InvalidTransition | ReasonRequired | VenueConflict

  datatype Reply = Done | EventReply(event: nat) | Refused(error: Error)

  function Next(status: Status): set<Status> {
    match status
    case Inquiry => {Provisional, Cancelled}
    case Provisional => {Confirmed, Cancelled}
    case Confirmed => {Completed, Cancelled}
    case _ => {}
  }

  predicate ValidKey(key: string) { 16 <= |key| <= 96 }

  // The venue is kept for such an event.
  predicate Holds(b: Banquet) { b.status in {Provisional, Confirmed} }

  predicate SameVenue(a: Details, b: Details) { a.date == b.date && a.venue == b.venue }

  predicate Overlap(a: Details, b: Details) { a.end > b.start && a.start < b.end }

  // Another event that keeps the same venue during some of this time.
  predicate Conflict(s: State, e: nat)
    requires e < |s.banquets|
  {
    exists i :: 0 <= i < |s.banquets| && i != e && Holds(s.banquets[i]) && s.banquets[i].property == s.banquets[e].property
                && SameVenue(s.banquets[i].details, s.banquets[e].details) && Overlap(s.banquets[i].details, s.banquets[e].details)
  }

  function WithEventKey(key: string): Banquet -> bool { (x: Banquet) => x.key == key }

  function EventByKey(bs: seq<Banquet>, key: string): (r: Option<nat>)
    ensures r.Some? ==> r.value < |bs| && bs[r.value].key == key
    ensures r.None? <==> forall i :: 0 <= i < |bs| ==> bs[i].key != key
  {
    LastWhere(bs, WithEventKey(key))
  }

  function WithEntryKey(key: string): Entry -> bool { (x: Entry) => x.key == key }

  function EntryByKey(hs: seq<Entry>, key: string): (r: Option<nat>)
    ensures r.Some? ==> r.value < |hs| && hs[r.value].key == key
    ensures r.None? <==> forall i :: 0 <= i < |hs| ==> hs[i].key != key
  {
    LastWhere(hs, WithEntryKey(key))
  }

  predicate Manages(s: State, partner: nat, property: nat) {
    property < |s.properties| && s.properties[property].partner == partner && s.properties[property].active
  }

  function BusinessDate(p: Property, today: int): int { if p.date.Some? then p.date.value else today }

  function Create(s: State, c: Call): (State, Reply)
    requires c.CreateCall?
  {
    if !ValidKey(c.key) then (s, Refused(InvalidKey))
    else if !(0 <= c.details.start < c.details.end < 1440) then (s, Refused(InvalidWindow))
    else if !c.wellFormed then (s, Refused(InvalidEvent))
    else
      var request := CreateRequest(c.partner, c.property, c.details);
      var found := EventByKey(s.banquets, c.key);
      if found.Some? then
        var b := s.banquets[found.value];
        if CreateRequest(b.partner, b.property, b.details) != request then (s, Refused(KeyReused)) else (s, EventReply(found.value))
      else if !Manages(s, c.partner, c.property) then (s, Refused(PropertyNotFound))
      else if c.details.date < BusinessDate(s.properties[c.property], c.today) then (s, Refused(DatePassed))
      else if EntryByKey(s.history, c.key).Some? then (s, Refused(UniqueViolation))
      else
        (s.(banquets := s.banquets + [Banquet(c.partner, c.property, c.details, Inquiry, 1, c.key)],
            history := s.history + [Entry(|s.banquets|, None, Inquiry, 1, c.key, request)]),
         EventReply(|s.banquets|))
  }

  function Move(s: State, c: Call): (State, Reply)
    requires c.MoveCall?
  {
    if !ValidKey(c.key) then (s, Refused(InvalidKey))
    else if c.version < 1 then (s, Refused(StaleEvent))
    else
      var request := MoveRequest(c.event, c.note, c.partner, c.target, c.version);
      var found := EntryByKey(s.history, c.key);
      if found.Some? then
        var h := s.history[found.value];
        if h.request != request then (s, Refused(KeyReused))
        else if h.event >= |s.banquets| || s.banquets[h.event].partner != c.partner then (s, Refused(EventNotFound))
        else (s, EventReply(h.event))
      else if c.event >= |s.banquets| || s.banquets[c.event].partner != c.partner then (s, Refused(EventNotFound))
      else
        var b := s.banquets[c.event];
        if !Manages(s, c.partner, b.property) then (s, Refused(PropertyNotFound))
        else if b.version != c.version then (s, Refused(StaleEvent))
        else if c.target.None? || c.target.value !in Next(b.status) then (s, Refused(InvalidTransition))
        else if c.target.value == Cancelled && |c.note| < 8 then (s, Refused(ReasonRequired))
        else if c.target.value in {Provisional, Confirmed} && Conflict(s, c.event) then (s, Refused(VenueConflict))
        else
          (s.(banquets := s.banquets[c.event := b.(status := c.target.value, version := b.version + 1)],
              history := s.history + [Entry(c.event, Some(b.status), c.target.value, b.version + 1, c.key, request)]),
           EventReply(c.event))
  }

  // Properties come, and the rest of the system opens, closes and dates them.
  function Environment(s: State, c: Call): (State, Reply)
    requires c.PropertyCall? || c.EnvironmentCall?
  {
    if c.PropertyCall? then (s.(properties := s.properties + [Property(c.partner, true, None)]), Done)
    else if c.property >= |s.properties| then (s, Refused(PropertyNotFound))
    else (s.(properties := s.properties[c.property := s.properties[c.property].(active := c.active, date := c.date)]), Done)
  }

  function Apply(s: State, c: Call): (State, Reply) {
    if c.CreateCall? then Create(s, c)
    else if c.MoveCall? then Move(s, c)
    else Environment(s, c)
  }

  function Run(s: State, calls: seq<Call>): State {
    if calls == [] then s else Apply(Run(s, calls[..|calls| - 1]), calls[|calls| - 1]).0
  }

  const EMPTY := State([], [], [])
}

// What each call of the banquets asks for and what it leaves, spelled on the events and their history.

module BanquetVenuesOutcomes {
  import opened Common
  import opened BanquetVenues

  ghost predicate Runs(s: State, partner: nat, p: nat) {
    p < |s.properties| && s.properties[p].partner == partner && s.properties[p].active
  }

  ghost predicate FreshKey(s: State, key: string) {
    && (forall i :: 0 <= i < |s.banquets| ==> s.banquets[i].key != key)
    && (forall i :: 0 <= i < |s.history| ==> s.history[i].key != key)
  }

  // A window within one day, not before the day of the books.
  ghost predicate MayCreate(s: State, c: Call)
    requires c.CreateCall?
  {
    && 16 <= |c.key| <= 96 && 0 <= c.details.start < c.details.end <= 1439 && c.wellFormed && Runs(s, c.partner, c.property)
    && c.details.date >= match s.properties[c.property].date { case Some(d) => d case None => c.today }
  }

  lemma CreationsExactly(s: State, c: Call)
    requires c.CreateCall? && FreshKey(s, c.key)
    ensures if MayCreate(s, c) then
              Apply(s, c) == (s.(banquets := s.banquets + [Banquet(c.partner, c.property, c.details, Inquiry, 1, c.key)],
                                 history := s.history + [Entry(|s.banquets|, None, Inquiry, 1, c.key, CreateRequest(c.partner, c.property, c.details))]),
                              EventReply(|s.banquets|))
            else Apply(s, c).0 == s && Apply(s, c).1.Refused?
  {
  }

  ghost predicate MoveKnown(from: Status, to: Status) {
    || (from == Inquiry && (to == Provisional || to == Cancelled))
    || (from == Provisional && (to == Confirmed || to == Cancelled))
    || (from == Confirmed && (to == Completed || to == Cancelled))
  }

  // Another event keeps the venue at a moment of this one.
  ghost predicate Clashes(s: State, e: nat)
    requires e < |s.banquets|
  {
    exists i, minute :: ClashesAt(s, e, i, minute)
  }

  ghost predicate ClashesAt(s: State, e: nat, i: nat, minute: int)
    requires e < |s.banquets|
  {
    var d := s.banquets[e].details;
    && i < |s.banquets| && i != e && s.banquets[i].property == s.banquets[e].property
    && (s.banquets[i].status == Provisional || s.banquets[i].status == Confirmed)
    && s.banquets[i].details.date == d.date && s.banquets[i].details.venue == d.venue
    && d.start <= minute < d.end && s.banquets[i].details.start <= minute < s.banquets[i].details.end
  }

  ghost predicate WindowsOk(s: State) {
    forall i :: 0 <= i < |s.banquets| ==> s.banquets[i].details.start < s.banquets[i].details.end
  }

  lemma ConflictsAreClashes(s: State, e: nat)
    requires WindowsOk(s) && e < |s.banquets|
    ensures Conflict(s, e) <==> Clashes(s, e)
  {
    var d := s.banquets[e].details;
    if Conflict(s, e) {
      var i :| 0 <= i < |s.banquets| && i != e && Holds(s.banquets[i]) && s.banquets[i].property == s.banquets[e].property
               && SameVenue(s.banquets[i].details, d) && Overlap(s.banquets[i].details, d);
      var minute := if s.banquets[i].details.start < d.start then d.start else s.banquets[i].details.start;
      assert ClashesAt(s, e, i, minute);
    }
    if Clashes(s, e) {
      var i: nat, minute :| ClashesAt(s, e, i, minute);
      assert Overlap(s.banquets[i].details, d);
    }
  }

  ghost predicate MayMove(s: State, c: Call)
    requires c.MoveCall?
  {
    && 16 <= |c.key| <= 96 && c.version >= 1 && c.event < |s.banquets| && c.target.Some?
    && var b := s.banquets[c.event];
       && b.partner == c.partner && Runs(s, c.partner, b.property) && b.version == c.version && MoveKnown(b.status, c.target.value)
       && (c.target.value == Cancelled ==> |c.note| >= 8)
       && (c.target.value == Provisional || c.target.value == Confirmed ==> !Clashes(s, c.event))
  }

  lemma MovesExactly(s: State, c: Call)
    requires WindowsOk(s) && c.MoveCall? && forall i :: 0 <= i < |s.history| ==> s.history[i].key != c.key
    ensures if MayMove(s, c) then
              var b := s.banquets[c.event];
              Apply(s, c) == (s.(banquets := s.banquets[c.event := b.(status := c.target.value, version := b.version + 1)],
                                 history := s.history + [Entry(c.event, Some(b.status), c.target.value, b.version + 1, c.key,
                                                               MoveRequest(c.event, c.note, c.partner, c.target, c.version))]),
                              EventReply(c.event))
            else Apply(s, c).0 == s && Apply(s, c).1.Refused?
  {
    if c.event < |s.banquets| {
      ConflictsAreClashes(s, c.event);
    }
    hide Conflict, Clashes;
  }

  // A used key is answered for its own request only, and never changes anything.
  lemma UsedKeysAnswerTheirRequest(s: State, c: Call, i: nat)
    ensures c.MoveCall? && 16 <= |c.key| <= 96 && c.version >= 1 && i < |s.history| && s.history[i].key == c.key
            && (forall j :: 0 <= j < |s.history| && s.history[j].key == c.key ==> j == i) ==>
              Apply(s, c).0 == s
              && (s.history[i].request != MoveRequest(c.event, c.note, c.partner, c.target, c.version) ==> Apply(s, c).1 == Refused(KeyReused))
    ensures c.CreateCall? && 16 <= |c.key| <= 96 && 0 <= c.details.start < c.details.end <= 1439 && c.wellFormed
            && i < |s.banquets| && s.banquets[i].key == c.key
            && (forall j :: 0 <= j < |s.banquets| && s.banquets[j].key == c.key ==> j == i) ==>
              Apply(s, c) == (s, if s.banquets[i].partner == c.partner && s.banquets[i].property == c.property && s.banquets[i].details == c.details
                                 then EventReply(i) else Refused(KeyReused))
  {
  }

  // ---- refusals ----

  // A refusal names what is so.
  ghost predicate WhyNotCreated(s: State, c: Call, e: Error)
    requires c.CreateCall?
  {
    match e
    case InvalidKey => |c.key| < 16 || |c.key| > 96
    case InvalidWindow => c.details.start < 0 || c.details.end <= c.details.start || c.details.end > 1439
    case InvalidEvent => !c.wellFormed
    case KeyReused => exists i :: 0 <= i < |s.banquets| && s.banquets[i].key == c.key
                        && (s.banquets[i].partner != c.partner || s.banquets[i].property != c.property || s.banquets[i].details != c.details)
    case PropertyNotFound => !Runs(s, c.partner, c.property)
    case DatePassed => c.property < |s.properties|
                       && c.details.date < match s.properties[c.property].date { case Some(d) => d case None => c.today }
    case UniqueViolation => exists i :: 0 <= i < |s.history| && s.history[i].key == c.key
    case _ => false
  }

  lemma CreationsRefusedTruly(s: State, c: Call)
    requires c.CreateCall? && Apply(s, c).1.Refused?
    ensures WhyNotCreated(s, c, Apply(s, c).1.error)
  {
    hide EventByKey, EntryByKey;
  }

  ghost predicate WhyNotMoved(s: State, c: Call, e: Error)
    requires c.MoveCall?
  {
    match e
    case InvalidKey => |c.key| < 16 || |c.key| > 96
    case KeyReused => exists i :: 0 <= i < |s.history| && s.history[i].key == c.key
                        && s.history[i].request != MoveRequest(c.event, c.note, c.partner, c.target, c.version)
    case EventNotFound =>
      || !(c.event < |s.banquets| && s.banquets[c.event].partner == c.partner)
      || exists i :: 0 <= i < |s.history| && s.history[i].key == c.key
           && !(s.history[i].event < |s.banquets| && s.banquets[s.history[i].event].partner == c.partner)
    case PropertyNotFound => c.event < |s.banquets| && !Runs(s, c.partner, s.banquets[c.event].property)
    case StaleEvent => c.version < 1 || (c.event < |s.banquets| && s.banquets[c.event].version != c.version)
    case InvalidTransition =>
      c.event < |s.banquets| && (c.target.None? || !MoveKnown(s.banquets[c.event].status, c.target.value))
    case ReasonRequired => c.target == Some(Cancelled) && |c.note| < 8
    case VenueConflict => (c.target == Some(Provisional) || c.target == Some(Confirmed)) && c.event < |s.banquets| && Clashes(s, c.event)
    case _ => false
  }

  lemma MovesRefusedTruly(s: State, c: Call)
    requires WindowsOk(s) && c.MoveCall? && Apply(s, c).1.Refused?
    ensures WhyNotMoved(s, c, Apply(s, c).1.error)
  {
    if c.event < |s.banquets| {
      ConflictsAreClashes(s, c.event);
    }
    hide Conflict, Clashes, EntryByKey;
  }
}

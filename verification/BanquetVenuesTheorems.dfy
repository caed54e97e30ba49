// A venue is kept for one event at a time, histories replay, and a repeated request changes nothing.

module BanquetVenuesTheorems {
  import opened Common
  import opened StatusLogs
  import opened BanquetVenues

  function LogOf(hs: seq<Entry>, e: nat): seq<StatusLogs.Move<Status>> {
    if hs == [] then []
    else
      var before := LogOf(hs[..|hs| - 1], e);
      var h := hs[|hs| - 1];
      if h.event == e then before + [StatusLogs.Move.Move(h.from, h.to, h.version)] else before
  }

  ghost predicate LogOk(s: State, e: nat)
    requires e < |s.banquets|
  {
    var log := LogOf(s.history, e);
    && Replays(log, Inquiry, s.banquets[e].status, s.banquets[e].version)
    && forall k :: 1 <= k < |log| ==> log[k].to in Next(log[k - 1].to)
  }

  ghost predicate EntryOk(s: State, h: Entry) {
    && h.event < |s.banquets|
    && (h.request.MoveRequest? ==> h.request.partner == s.banquets[h.event].partner)
  }

  ghost predicate LogsOk(s: State) {
    && (forall e: nat :: e < |s.banquets| ==> LogOk(s, e))
    && (forall k :: 0 <= k < |s.history| ==> EntryOk(s, s.history[k]))
    && (forall j, k :: 0 <= j < k < |s.history| ==> s.history[j].key != s.history[k].key)
  }

  // Two events that keep the same venue on the same day end before the other starts.
  ghost predicate Apart(a: Banquet, b: Banquet) {
    Holds(a) && Holds(b) && a.property == b.property && SameVenue(a.details, b.details) ==>
      a.details.end <= b.details.start || b.details.end <= a.details.start
  }

  ghost predicate VenuesOk(s: State) {
    && (forall i :: 0 <= i < |s.banquets| ==> s.banquets[i].details.start < s.banquets[i].details.end)
    && (forall i, j :: 0 <= i < j < |s.banquets| ==> Apart(s.banquets[i], s.banquets[j]))
    && (forall i, j :: 0 <= i < j < |s.banquets| ==> s.banquets[i].key != s.banquets[j].key)
  }

  ghost predicate Inv(s: State) { LogsOk(s) && VenuesOk(s) }

  lemma LogAppended(hs: seq<Entry>, h: Entry, e: nat)
    ensures LogOf(hs + [h], e) == LogOf(hs, e) + if h.event == e then [StatusLogs.Move.Move(h.from, h.to, h.version)] else []
  {
    assert (hs + [h])[..|hs|] == hs;
  }

  lemma {:induction false} NoMoves(hs: seq<Entry>, e: nat)
    requires forall k :: 0 <= k < |hs| ==> hs[k].event != e
    ensures LogOf(hs, e) == []
  {
    if hs != [] {
      NoMoves(hs[..|hs| - 1], e);
    }
  }

  lemma CreateKeepsInv(s: State, c: Call)
    requires Inv(s) && c.CreateCall?
    ensures Inv(Create(s, c).0)
  {
    var s' := Create(s, c).0;
    if s' != s {
      var n, h := |s.banquets|, s'.history[|s.history|];
      forall e: nat | e < |s'.banquets| ensures LogOk(s', e) {
        LogAppended(s.history, h, e);
        if e < n {
          assert LogOk(s, e);
        } else {
          forall k | 0 <= k < |s.history| ensures s.history[k].event != n {
            assert EntryOk(s, s.history[k]);
          }
          NoMoves(s.history, n);
        }
      }
      forall k | 0 <= k < |s'.history| ensures EntryOk(s', s'.history[k]) {
        if k < |s.history| {
          assert EntryOk(s, s.history[k]);
        }
      }
    }
  }

  lemma MoveKeepsLogs(s: State, c: Call)
    requires LogsOk(s) && c.MoveCall?
    ensures LogsOk(BanquetVenues.Move(s, c).0)
  {
    var s' := BanquetVenues.Move(s, c).0;
    if s' != s {
      var h := s'.history[|s.history|];
      forall e: nat | e < |s'.banquets| ensures LogOk(s', e) {
        LogAppended(s.history, h, e);
        assert LogOk(s, e);
      }
      forall k | 0 <= k < |s'.history| ensures EntryOk(s', s'.history[k]) {
        if k < |s.history| {
          assert EntryOk(s, s.history[k]);
        }
      }
    }
  }

  lemma MoveKeepsVenues(s: State, c: Call)
    requires VenuesOk(s) && c.MoveCall?
    ensures VenuesOk(BanquetVenues.Move(s, c).0)
  {
    var s' := BanquetVenues.Move(s, c).0;
    if s' != s {
      forall i, j | 0 <= i < j < |s'.banquets| ensures Apart(s'.banquets[i], s'.banquets[j]) {
        assert Apart(s.banquets[i], s.banquets[j]);
      }
    }
  }

  lemma EnvironmentKeepsInv(s: State, c: Call)
    requires Inv(s) && (c.PropertyCall? || c.EnvironmentCall?)
    ensures Inv(Environment(s, c).0)
  {
    var s' := Environment(s, c).0;
    forall e: nat | e < |s'.banquets| ensures LogOk(s', e) {
      assert LogOk(s, e);
    }
    forall k | 0 <= k < |s'.history| ensures EntryOk(s', s'.history[k]) {
      assert EntryOk(s, s.history[k]);
    }
  }

  lemma {:induction false} ApplyKeepsInv(s: State, c: Call)
    requires Inv(s)
    ensures Inv(Apply(s, c).0)
  {
    if c.CreateCall? { CreateKeepsInv(s, c); }
    else if c.MoveCall? { MoveKeepsLogs(s, c); MoveKeepsVenues(s, c); }
    else { EnvironmentKeepsInv(s, c); }
  }

  lemma {:induction false} RunKeepsInv(calls: seq<Call>)
    ensures Inv(Run(EMPTY, calls))
  {
    hide Apply;
    if calls != [] {
      RunKeepsInv(calls[..|calls| - 1]);
      ApplyKeepsInv(Run(EMPTY, calls[..|calls| - 1]), calls[|calls| - 1]);
    }
  }

  // ---- theorems over every run ----

  // Any two provisional or confirmed events of one property, venue and date have disjoint times.
  lemma {:induction false} VenuesAreExclusive(calls: seq<Call>, i: nat, j: nat)
    requires i < |Run(EMPTY, calls).banquets| && j < |Run(EMPTY, calls).banquets| && i != j
    requires var s := Run(EMPTY, calls); Holds(s.banquets[i]) && Holds(s.banquets[j])
    requires var s := Run(EMPTY, calls); s.banquets[i].property == s.banquets[j].property
    requires var s := Run(EMPTY, calls); SameVenue(s.banquets[i].details, s.banquets[j].details)
    ensures var a, b := Run(EMPTY, calls).banquets[i].details, Run(EMPTY, calls).banquets[j].details;
            a.start < a.end && b.start < b.end && (a.end <= b.start || b.end <= a.start)
  {
    hide Run;
    RunKeepsInv(calls);
    var s := Run(EMPTY, calls);
    assert if i < j then Apart(s.banquets[i], s.banquets[j]) else Apart(s.banquets[j], s.banquets[i]);
  }

  // Confirming a provisional event is never refused for its venue: it has kept it all along.
  lemma {:induction false} ConfirmationNeverConflicts(calls: seq<Call>, c: Call)
    requires c.MoveCall? && c.target == Some(Confirmed)
    ensures BanquetVenues.Move(Run(EMPTY, calls), c).1 != Refused(VenueConflict)
  {
    hide Run;
    RunKeepsInv(calls);
    var s := Run(EMPTY, calls);
    if c.event < |s.banquets| && s.banquets[c.event].status == Provisional {
      KeptVenueHasNoConflict(s, c.event);
    }
  }

  lemma KeptVenueHasNoConflict(s: State, e: nat)
    requires VenuesOk(s) && e < |s.banquets| && Holds(s.banquets[e])
    ensures !Conflict(s, e)
  {
    forall i: nat | i < |s.banquets| && i != e && Holds(s.banquets[i]) && s.banquets[i].property == s.banquets[e].property
                    && SameVenue(s.banquets[i].details, s.banquets[e].details)
      ensures !Overlap(s.banquets[i].details, s.banquets[e].details)
    {
      assert if i < e then Apart(s.banquets[i], s.banquets[e]) else Apart(s.banquets[e], s.banquets[i]);
    }
  }

  // Replaying an event's history gives its status and version, by allowed moves only.
  lemma {:induction false} HistoriesReplay(calls: seq<Call>, e: nat)
    requires e < |Run(EMPTY, calls).banquets|
    ensures var s := Run(EMPTY, calls);
            var log := LogOf(s.history, e);
            && Replays(log, Inquiry, s.banquets[e].status, s.banquets[e].version)
            && forall k :: 1 <= k < |log| ==> log[k].to in Next(log[k - 1].to)
  {
    hide Run;
    RunKeepsInv(calls);
    assert LogOk(Run(EMPTY, calls), e);
  }

  // ---- repeated requests ----

  // Events keep what they were created with, and histories only grow.
  ghost predicate Later(s: State, s': State) {
    && s.history <= s'.history && |s.banquets| <= |s'.banquets|
    && forall i :: 0 <= i < |s.banquets| ==> SameEvent(s.banquets[i], s'.banquets[i])
  }

  ghost predicate SameEvent(a: Banquet, b: Banquet) {
    b == a.(status := b.status, version := b.version)
  }

  lemma StepIsLater(s: State, c: Call)
    ensures Later(s, Apply(s, c).0)
  {
  }

  lemma {:induction false} RunIsLater(s: State, calls: seq<Call>)
    requires Inv(s)
    ensures Later(s, Run(s, calls)) && Inv(Run(s, calls))
  {
    hide Apply;
    if calls != [] {
      var before := Run(s, calls[..|calls| - 1]);
      RunIsLater(s, calls[..|calls| - 1]);
      StepIsLater(before, calls[|calls| - 1]);
      ApplyKeepsInv(before, calls[|calls| - 1]);
      var after := Run(s, calls);
      forall i | 0 <= i < |s.banquets| ensures SameEvent(s.banquets[i], after.banquets[i]) {
        assert SameEvent(s.banquets[i], before.banquets[i]) && SameEvent(before.banquets[i], after.banquets[i]);
      }
    }
  }

  lemma CreateRecorded(s: State, c: Call)
    requires c.CreateCall? && Create(s, c).1.EventReply?
    ensures ValidKey(c.key) && 0 <= c.details.start < c.details.end < 1440 && c.wellFormed
    ensures var (s', reply) := Create(s, c);
            && reply.event < |s'.banquets|
            && var b := s'.banquets[reply.event]; b.key == c.key && b.partner == c.partner && b.property == c.property && b.details == c.details
  {
  }

  lemma CreatedIsAnswered(s: State, c: Call, e: nat)
    requires c.CreateCall? && VenuesOk(s) && e < |s.banquets| && s.banquets[e].key == c.key
    requires s.banquets[e].partner == c.partner && s.banquets[e].property == c.property && s.banquets[e].details == c.details
    requires ValidKey(c.key) && 0 <= c.details.start < c.details.end < 1440 && c.wellFormed
    ensures Create(s, c) == (s, EventReply(e))
  {
    var found := EventByKey(s.banquets, c.key);
    assert found == Some(e);
  }

  ghost predicate MoveRecordedAt(s: State, c: Call, e: nat, i: nat)
    requires c.MoveCall?
  {
    && i < |s.history| && s.history[i].key == c.key && s.history[i].event == e < |s.banquets| && s.banquets[e].partner == c.partner
    && s.history[i].request == MoveRequest(c.event, c.note, c.partner, c.target, c.version)
  }

  lemma MoveRecorded(s: State, c: Call) returns (i: nat)
    requires c.MoveCall? && BanquetVenues.Move(s, c).1.EventReply?
    ensures ValidKey(c.key) && c.version >= 1
    ensures var (s', reply) := BanquetVenues.Move(s, c); MoveRecordedAt(s', c, reply.event, i)
  {
    var found := EntryByKey(s.history, c.key);
    i := if found.Some? then found.value else |s.history|;
  }

  lemma MovedIsAnswered(s: State, c: Call, e: nat, i: nat)
    requires c.MoveCall? && LogsOk(s) && ValidKey(c.key) && c.version >= 1 && MoveRecordedAt(s, c, e, i)
    ensures BanquetVenues.Move(s, c) == (s, EventReply(e))
  {
    var found := EntryByKey(s.history, c.key);
    assert found == Some(i);
  }

  // An accepted creation or move repeated with its key, whatever happened since, changes nothing and answers the same event.
  lemma {:induction false} RetriesChangeNothing(s: State, c: Call, calls: seq<Call>)
    requires Inv(s) && (c.CreateCall? || c.MoveCall?) && Apply(s, c).1.EventReply?
    ensures var later := Run(Apply(s, c).0, calls);
            Apply(later, c) == (later, Apply(s, c).1)
  {
    hide Run, Create, BanquetVenues.Move;
    var s1, e := Apply(s, c).0, Apply(s, c).1.event;
    ApplyKeepsInv(s, c);
    RunIsLater(s1, calls);
    var later := Run(s1, calls);
    if c.CreateCall? {
      CreateRecorded(s, c);
      assert SameEvent(s1.banquets[e], later.banquets[e]);
      CreatedIsAnswered(later, c, e);
    } else {
      var i := MoveRecorded(s, c);
      assert SameEvent(s1.banquets[e], later.banquets[e]) && later.history[i] == s1.history[i];
      MovedIsAnswered(later, c, e, i);
    }
  }
}

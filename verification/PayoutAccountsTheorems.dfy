// However imports and reviews interleave, a supplier's default destination is the one account that was verified last.

module PayoutAccountsTheorems {
  import opened Common
  import opened StatusLogs
  import opened PayoutAccounts

  // The moves of one account, oldest first.
  function LogOf(es: seq<Event>, a: nat): seq<Move<Status>> {
    if es == [] then []
    else
      var before := LogOf(es[..|es| - 1], a);
      var e := es[|es| - 1];
      if e.account == a then before + [Move(e.from, e.to, e.version)] else before
  }

  // The account of the supplier that was verified last.
  function LastVerified(accounts: seq<Account>, es: seq<Event>, p: nat): Option<nat> {
    if es == [] then None
    else
      var e := es[|es| - 1];
      if e.action == WasVerified && e.account < |accounts| && accounts[e.account].partner == p then Some(e.account)
      else LastVerified(accounts, es[..|es| - 1], p)
  }

  function Verifications(accounts: seq<Account>, es: seq<Event>, p: nat): nat {
    if es == [] then 0
    else
      var e := es[|es| - 1];
      Verifications(accounts, es[..|es| - 1], p)
      + if e.action == WasVerified && e.account < |accounts| && accounts[e.account].partner == p then 1 else 0
  }

  ghost predicate LogsOk(s: State) {
    && (forall a: nat :: a < |s.accounts| ==> Replays(LogOf(s.events, a), PendingVerification, s.accounts[a].status, s.accounts[a].version))
    && (forall k :: 0 <= k < |s.events| ==> s.events[k].account < |s.accounts|)
  }

  ghost predicate AccountsOk(s: State) {
    && (forall a :: 0 <= a < |s.accounts| ==>
          s.accounts[a].partner < |s.destinationVersions| && (s.accounts[a].isDefault ==> s.accounts[a].status == Verified))
    && (forall r :: 0 <= r < |s.reviews| ==> s.reviews[r].account < |s.accounts|)
  }

  // The default of a supplier is the account that was verified last, if any was.
  ghost predicate DefaultOk(s: State, p: nat) {
    var last := LastVerified(s.accounts, s.events, p);
    && (last.Some? ==> last.value < |s.accounts| && s.accounts[last.value].partner == p)
    && (forall a :: 0 <= a < |s.accounts| && s.accounts[a].partner == p ==> (s.accounts[a].isDefault <==> last == Some(a)))
    && (last.None? ==> forall a :: 0 <= a < |s.accounts| && s.accounts[a].partner == p ==> s.accounts[a].status != Verified)
  }

  ghost predicate VersionsOk(s: State) {
    forall p: nat :: p < |s.destinationVersions| ==> s.destinationVersions[p] == Verifications(s.accounts, s.events, p)
  }

  ghost predicate Inv(s: State) {
    && AccountsOk(s) && LogsOk(s) && VersionsOk(s)
    && (forall p: nat :: p < |s.destinationVersions| ==> DefaultOk(s, p))
  }

  // ---- one more event ----

  lemma LogAppended(es: seq<Event>, e: Event, a: nat)
    ensures LogOf(es + [e], a) == LogOf(es, a) + if e.account == a then [Move(e.from, e.to, e.version)] else []
  {
    assert (es + [e])[..|es|] == es;
  }

  lemma LastAppended(accounts: seq<Account>, es: seq<Event>, e: Event, p: nat)
    ensures LastVerified(accounts, es + [e], p)
            == if e.action == WasVerified && e.account < |accounts| && accounts[e.account].partner == p then Some(e.account)
               else LastVerified(accounts, es, p)
    ensures Verifications(accounts, es + [e], p)
            == Verifications(accounts, es, p)
               + if e.action == WasVerified && e.account < |accounts| && accounts[e.account].partner == p then 1 else 0
  {
    assert (es + [e])[..|es|] == es;
  }

  // Only the supplier of an account matters for what was verified.
  lemma {:induction false} SameSuppliers(accounts: seq<Account>, accounts': seq<Account>, es: seq<Event>, p: nat)
    requires |accounts| <= |accounts'| && forall a :: 0 <= a < |accounts| ==> accounts'[a].partner == accounts[a].partner
    requires forall k :: 0 <= k < |es| ==> es[k].account < |accounts|
    ensures LastVerified(accounts', es, p) == LastVerified(accounts, es, p)
    ensures Verifications(accounts', es, p) == Verifications(accounts, es, p)
  {
    if es != [] {
      SameSuppliers(accounts, accounts', es[..|es| - 1], p);
    }
  }

  lemma {:induction false} NoMoves(es: seq<Event>, a: nat)
    requires forall k :: 0 <= k < |es| ==> es[k].account != a
    ensures LogOf(es, a) == []
  {
    if es != [] {
      NoMoves(es[..|es| - 1], a);
    }
  }

  lemma {:induction false} LastIsThere(accounts: seq<Account>, es: seq<Event>, p: nat)
    ensures var last := LastVerified(accounts, es, p);
            last.Some? ==> last.value < |accounts| && accounts[last.value].partner == p
  {
    if es != [] {
      LastIsThere(accounts, es[..|es| - 1], p);
    }
  }

  // An account moves by one event.
  ghost predicate Moved(s: State, s': State, i: nat, e: Event) {
    && i < |s.accounts| == |s'.accounts|
    && s'.accounts == s.accounts[i := s'.accounts[i]] && s'.accounts[i].partner == s.accounts[i].partner
    && s'.events == s.events + [e] && e.account == i && e.from == Some(s.accounts[i].status) && e.to == s'.accounts[i].status
    && e.version == s'.accounts[i].version == s.accounts[i].version + 1
  }

  lemma MovedKeepsLogs(s: State, s': State, i: nat, e: Event)
    requires LogsOk(s) && Moved(s, s', i, e)
    ensures LogsOk(s')
  {
    forall a: nat | a < |s'.accounts| ensures Replays(LogOf(s'.events, a), PendingVerification, s'.accounts[a].status, s'.accounts[a].version) {
      LogAppended(s.events, e, a);
      assert Replays(LogOf(s.events, a), PendingVerification, s.accounts[a].status, s.accounts[a].version);
    }
  }

  // ---- superseding the defaults ----

  // What the loop keeps, whatever accounts it has been through.
  ghost predicate Superseding(s: State, s': State, partner: nat, except: nat, n: nat) {
    && |s'.accounts| == |s.accounts| && s'.reviews == s.reviews && s'.destinationVersions == s.destinationVersions
    && LogsOk(s')
    && (forall a :: 0 <= a < |s.accounts| ==>
          && s'.accounts[a].partner == s.accounts[a].partner && s'.accounts[a].status == s.accounts[a].status
          && s'.accounts[a].isDefault == (s.accounts[a].isDefault && (s.accounts[a].partner != partner || a == except || a >= n)))
    && (except < |s.accounts| ==> s'.accounts[except] == s.accounts[except])
    && (forall p: nat :: LastVerified(s.accounts, s'.events, p) == LastVerified(s.accounts, s.events, p)
                         && Verifications(s.accounts, s'.events, p) == Verifications(s.accounts, s.events, p))
  }

  lemma {:induction false} SupersedeKeeps(s: State, partner: nat, except: nat, n: nat)
    requires LogsOk(s) && n <= |s.accounts|
    ensures Superseding(s, SupersedeUpTo(s, partner, except, n), partner, except, n)
  {
    hide LogsOk, LastVerified, Verifications;
    if n > 0 {
      SupersedeKeeps(s, partner, except, n - 1);
      var before, after := SupersedeUpTo(s, partner, except, n - 1), SupersedeUpTo(s, partner, except, n);
      assert after == SupersedeOne(before, partner, except, n - 1);
      if after != before {
        var e := after.events[|before.events|];
        MovedKeepsLogs(before, after, n - 1, e);
        forall p: nat ensures LastVerified(s.accounts, after.events, p) == LastVerified(s.accounts, s.events, p)
                              && Verifications(s.accounts, after.events, p) == Verifications(s.accounts, s.events, p) {
          LastAppended(s.accounts, before.events, e, p);
        }
      }
    }
  }

  // ---- preservation ----

  lemma RegisterKeepsInv(s: State, c: Call)
    requires Inv(s) && c.RegisterCall?
    ensures Inv(Register(s, c).0)
  {
    var s' := Register(s, c).0;
    if s' != s {
      var n := |s.accounts|;
      var e := s'.events[|s.events|];
      forall a: nat | a < |s'.accounts| ensures Replays(LogOf(s'.events, a), PendingVerification, s'.accounts[a].status, s'.accounts[a].version) {
        LogAppended(s.events, e, a);
        if a == n {
          NoMoves(s.events, n);
        } else {
          assert Replays(LogOf(s.events, a), PendingVerification, s.accounts[a].status, s.accounts[a].version);
        }
      }
      forall p: nat | p < |s'.destinationVersions|
        ensures DefaultOk(s', p) && s'.destinationVersions[p] == Verifications(s'.accounts, s'.events, p)
      {
        assert DefaultOk(s, p);
        SameSuppliers(s.accounts, s'.accounts, s.events, p);
        LastAppended(s'.accounts, s.events, e, p);
      }
    }
  }

  lemma AddPartnerKeepsInv(s: State, c: Call)
    requires Inv(s) && c.AddPartnerCall?
    ensures Inv(Apply(s, c).0)
  {
    var s' := Apply(s, c).0;
    var n := |s.destinationVersions|;
    NobodyVerified(s, n, s.events);
    forall p: nat | p < |s'.destinationVersions| ensures DefaultOk(s', p) && s'.destinationVersions[p] == Verifications(s'.accounts, s'.events, p) {
      assert p < n ==> DefaultOk(s, p);
    }
  }

  lemma {:induction false} NobodyVerified(s: State, p: nat, es: seq<Event>)
    requires forall a :: 0 <= a < |s.accounts| ==> s.accounts[a].partner != p
    ensures LastVerified(s.accounts, es, p) == None && Verifications(s.accounts, es, p) == 0
  {
    if es != [] {
      NobodyVerified(s, p, es[..|es| - 1]);
    }
  }

  lemma LookKeepsInv(s: State, c: Call)
    requires Inv(s) && c.LookCall?
    ensures Inv(Look(s, c).0)
  {
    var s' := Look(s, c).0;
    forall p: nat | p < |s'.destinationVersions| ensures DefaultOk(s', p) {
      assert DefaultOk(s, p);
    }
  }

  // The end of a commit: the account is decided when no other account of its supplier is the default,
  // or nothing changes for the defaults.
  lemma DecideKeepsRest(s: State, r: Review)
    requires AccountsOk(s) && LogsOk(s) && StillPending(s, r)
    ensures var s' := Decide(s, r);
            && AccountsOk(s') && LogsOk(s')
            && (forall p: nat :: LastVerified(s'.accounts, s'.events, p)
                                 == (if r.verify && s.accounts[r.account].partner == p then Some(r.account) else LastVerified(s.accounts, s.events, p))
                                 && Verifications(s'.accounts, s'.events, p)
                                    == Verifications(s.accounts, s.events, p) + if r.verify && s.accounts[r.account].partner == p then 1 else 0)
  {
    var s' := Decide(s, r);
    var e := s'.events[|s.events|];
    MovedKeepsLogs(s, s', r.account, e);
    forall p: nat ensures LastVerified(s'.accounts, s'.events, p)
                          == (if r.verify && s.accounts[r.account].partner == p then Some(r.account) else LastVerified(s.accounts, s.events, p))
                          && Verifications(s'.accounts, s'.events, p)
                             == Verifications(s.accounts, s.events, p) + if r.verify && s.accounts[r.account].partner == p then 1 else 0
    {
      SameSuppliers(s.accounts, s'.accounts, s.events, p);
      LastAppended(s'.accounts, s.events, e, p);
    }
  }

  lemma RejectKeepsInv(s: State, r: Review)
    requires Inv(s) && StillPending(s, r) && !r.verify
    ensures Inv(Decide(s, r))
  {
    DecideKeepsRest(s, r);
    var s' := Decide(s, r);
    hide LastVerified, Verifications, LogsOk;
    forall p: nat | p < |s'.destinationVersions| ensures DefaultOk(s', p) {
      assert DefaultOk(s, p);
    }
  }

  lemma SupersededState(s: State, p: nat, except: nat) returns (s1: State)
    requires Inv(s) && p < |s.destinationVersions|
    ensures var raised := s.(destinationVersions := s.destinationVersions[p := s.destinationVersions[p] + 1]);
            s1 == SupersedeUpTo(raised, p, except, |s.accounts|) && Superseding(raised, s1, p, except, |s.accounts|)
    ensures AccountsOk(s1) && LogsOk(s1)
    ensures forall q: nat :: LastVerified(s1.accounts, s1.events, q) == LastVerified(s.accounts, s.events, q)
    ensures forall q: nat :: Verifications(s1.accounts, s1.events, q) == Verifications(s.accounts, s.events, q)
  {
    var raised := s.(destinationVersions := s.destinationVersions[p := s.destinationVersions[p] + 1]);
    SupersedeKeeps(raised, p, except, |s.accounts|);
    s1 := SupersedeUpTo(raised, p, except, |s.accounts|);
    forall q: nat ensures LastVerified(s1.accounts, s1.events, q) == LastVerified(s.accounts, s.events, q)
                          && Verifications(s1.accounts, s1.events, q) == Verifications(s.accounts, s.events, q) {
      SameSuppliers(s.accounts, s1.accounts, s1.events, q);
    }
  }

  lemma VerifyKeepsInv(s: State, r: Review)
    requires Inv(s) && StillPending(s, r) && r.verify
    ensures var p := s.accounts[r.account].partner;
            var raised := s.(destinationVersions := s.destinationVersions[p := s.destinationVersions[p] + 1]);
            var s1 := SupersedeUpTo(raised, p, r.account, |s.accounts|);
            r.account < |s1.accounts| && Inv(Decide(s1, r))
  {
    hide LastVerified, Verifications, LogsOk, SupersedeUpTo;
    var s1 := SupersededState(s, s.accounts[r.account].partner, r.account);
    DecideKeepsRest(s1, r);
    var s' := Decide(s1, r);
    forall q: nat | q < |s'.destinationVersions| ensures DefaultOk(s', q) {
      assert DefaultOk(s, q);
    }
  }

  lemma CommitKeepsInv(s: State, c: Call)
    requires Inv(s) && c.CommitCall?
    ensures Inv(Commit(s, c).0)
  {
    hide Inv, Decide, SupersedeUpTo;
    if Commit(s, c).1.AccountReply? {
      var r := s.reviews[c.review];
      if r.verify {
        VerifyKeepsInv(s, r);
      } else {
        RejectKeepsInv(s, r);
      }
    }
  }

  lemma ApplyKeepsInv(s: State, c: Call)
    requires Inv(s)
    ensures Inv(Apply(s, c).0)
  {
    hide Inv, Register, Look, Commit;
    if c.AddPartnerCall? { AddPartnerKeepsInv(s, c); }
    else if c.RegisterCall? { RegisterKeepsInv(s, c); }
    else if c.LookCall? { LookKeepsInv(s, c); }
    else { CommitKeepsInv(s, c); }
  }

  lemma {:induction false} RunKeepsInv(calls: seq<Call>)
    ensures Inv(Run(EMPTY, calls))
  {
    hide Apply;
    if calls != [] {
      RunKeepsInv(calls[..|calls| - 1]);
      ApplyKeepsInv(Run(EMPTY, calls[..|calls| - 1]), calls[|calls| - 1]);
    }
  }

  // ---- theorems ----

  // In every run: a supplier with a verified account has exactly one default, the account verified last, and that
  // account is verified; a supplier with none has no default. The destination version counts the verifications.
  lemma {:induction false} TheDefaultIsTheLastVerified(calls: seq<Call>, p: nat)
    requires p < |Run(EMPTY, calls).destinationVersions|
    ensures var s := Run(EMPTY, calls);
            var last := LastVerified(s.accounts, s.events, p);
            && (forall a :: 0 <= a < |s.accounts| && s.accounts[a].partner == p ==>
                  (s.accounts[a].isDefault <==> last == Some(a)) && (s.accounts[a].isDefault ==> s.accounts[a].status == Verified))
            && ((exists a :: 0 <= a < |s.accounts| && s.accounts[a].partner == p && s.accounts[a].status == Verified)
                ==> exists a :: 0 <= a < |s.accounts| && s.accounts[a].partner == p && s.accounts[a].isDefault)
            && s.destinationVersions[p] == Verifications(s.accounts, s.events, p)
  {
    hide Run;
    RunKeepsInv(calls);
    assert DefaultOk(Run(EMPTY, calls), p);
  }

  // An account's events replay to its status and version.
  lemma {:induction false} AccountLogsReplay(calls: seq<Call>, a: nat)
    requires a < |Run(EMPTY, calls).accounts|
    ensures var s := Run(EMPTY, calls); Replays(LogOf(s.events, a), PendingVerification, s.accounts[a].status, s.accounts[a].version)
  {
    hide Run;
    RunKeepsInv(calls);
  }

  lemma CommitRaisesVersion(s: State, c: Call)
    requires LogsOk(s) && c.CommitCall? && Commit(s, c).1.AccountReply? && s.reviews[c.review].verify
    ensures var s', p := Commit(s, c).0, s.accounts[s.reviews[c.review].account].partner;
            && |s'.accounts| == |s.accounts| && (forall a :: 0 <= a < |s.accounts| ==> s'.accounts[a].partner == s.accounts[a].partner)
            && |s'.destinationVersions| == |s.destinationVersions| && s'.destinationVersions[p] == s.destinationVersions[p] + 1
            && s'.reviews == s.reviews
  {
    var r := s.reviews[c.review];
    var p := s.accounts[r.account].partner;
    var raised := s.(destinationVersions := s.destinationVersions[p := s.destinationVersions[p] + 1]);
    SupersedeKeeps(raised, p, r.account, |s.accounts|);
  }

  lemma StepKeepsVersions(s: State, c: Call, p: nat)
    requires LogsOk(s) && p < |s.destinationVersions|
    ensures var s' := Apply(s, c).0;
            && p < |s'.destinationVersions| && s.destinationVersions[p] <= s'.destinationVersions[p]
            && s.reviews <= s'.reviews && |s.accounts| <= |s'.accounts|
            && forall a :: 0 <= a < |s.accounts| ==> s'.accounts[a].partner == s.accounts[a].partner
  {
    if c.CommitCall? && Commit(s, c).1.AccountReply? {
      if s.reviews[c.review].verify {
        var r := s.reviews[c.review];
        var q := s.accounts[r.account].partner;
        SupersedeKeeps(s.(destinationVersions := s.destinationVersions[q := s.destinationVersions[q] + 1]), q, r.account, |s.accounts|);
      }
    }
  }

  lemma {:induction false} VersionsOnlyGrow(s: State, calls: seq<Call>, p: nat)
    requires Inv(s) && p < |s.destinationVersions|
    ensures var s' := Run(s, calls);
            && Inv(s') && p < |s'.destinationVersions| && s.destinationVersions[p] <= s'.destinationVersions[p]
            && s.reviews <= s'.reviews && |s.accounts| <= |s'.accounts|
            && forall a :: 0 <= a < |s.accounts| ==> s'.accounts[a].partner == s.accounts[a].partner
  {
    hide Apply;
    if calls != [] {
      var before := Run(s, calls[..|calls| - 1]);
      VersionsOnlyGrow(s, calls[..|calls| - 1], p);
      StepKeepsVersions(before, calls[|calls| - 1], p);
      ApplyKeepsInv(before, calls[|calls| - 1]);
    }
  }

  // Of two verifying reviews of one supplier that read the same destination version only one can ever commit: once one
  // has, the other is turned away whatever else happens.
  lemma {:induction false} RacingReviewsExcludeEachOther(s: State, first: nat, second: nat, calls: seq<Call>)
    requires Inv(s) && first < |s.reviews| && second < |s.reviews| && s.reviews[first].verify && s.reviews[second].verify
    requires s.accounts[s.reviews[first].account].partner == s.accounts[s.reviews[second].account].partner
    requires s.reviews[first].partnerVersion == s.reviews[second].partnerVersion
    requires Commit(s, CommitCall(first)).1.AccountReply?
    ensures var later := Run(Commit(s, CommitCall(first)).0, calls);
            Commit(later, CommitCall(second)) == (later, Refused(DecisionInProgress))
  {
    var p := s.accounts[s.reviews[first].account].partner;
    var s1 := Commit(s, CommitCall(first)).0;
    assert s.destinationVersions[p] == s.reviews[first].partnerVersion;
    CommitRaisesVersion(s, CommitCall(first));
    CommitKeepsInv(s, CommitCall(first));
    hide Commit, Run, Inv;
    VersionsOnlyGrow(s1, calls, p);
    StaleReviewIsTurnedAway(Run(s1, calls), second, p);
  }

  lemma StaleReviewIsTurnedAway(s: State, review: nat, p: nat)
    requires review < |s.reviews| && s.reviews[review].verify && s.reviews[review].account < |s.accounts|
    requires s.accounts[s.reviews[review].account].partner == p < |s.destinationVersions|
    requires s.destinationVersions[p] != s.reviews[review].partnerVersion
    ensures Commit(s, CommitCall(review)) == (s, Refused(DecisionInProgress))
  {
  }
}

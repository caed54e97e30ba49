// What each call of the payout destinations asks for and what it leaves, spelled on the accounts and their events.

module PayoutAccountsOutcomes {
  import opened Common
  import opened PayoutAccounts
  import opened PayoutAccountsTheorems

  // A new destination waits to be verified and is no default.
  lemma ImportsExactly(s: State, c: Call)
    requires c.RegisterCall?
    ensures if c.partner < |s.destinationVersions| && c.wellFormed && forall i :: 0 <= i < |s.accounts| ==> s.accounts[i].reference != c.reference then
              Apply(s, c) == (s.(accounts := s.accounts + [Account(c.partner, c.reference, PendingVerification, false, 1)],
                                 events := s.events + [Event(|s.accounts|, Imported, None, PendingVerification, 1)]), AccountReply(|s.accounts|))
            else Apply(s, c).0 == s && Apply(s, c).1.Refused?
  {
  }

  // A review is of a pending account in the version the caller saw, and reads the supplier's destination version.
  lemma LooksExactly(s: State, c: Call)
    requires c.LookCall? && forall i :: 0 <= i < |s.accounts| ==> s.accounts[i].partner < |s.destinationVersions|
    ensures if c.account < |s.accounts| && s.accounts[c.account].status == PendingVerification && s.accounts[c.account].version == c.expectedVersion then
              Apply(s, c) == (s.(reviews := s.reviews + [Review(c.account, c.verify, c.expectedVersion,
                                                                s.destinationVersions[s.accounts[c.account].partner])]), ReviewReply(|s.reviews|))
            else Apply(s, c).0 == s && Apply(s, c).1.Refused?
  {
  }

  // The other defaults of the supplier.
  ghost predicate OtherDefault(s: State, partner: nat, except: nat, i: nat) {
    i < |s.accounts| && i != except && s.accounts[i].partner == partner && s.accounts[i].isDefault
  }

  ghost predicate Superseded(s: State, s': State, partner: nat, except: nat, n: nat) {
    && s' == s.(accounts := s'.accounts, events := s'.events) && |s'.accounts| == |s.accounts|
    && forall i: nat :: i < |s.accounts| ==>
         s'.accounts[i] == if i < n && OtherDefault(s, partner, except, i)
                           then s.accounts[i].(isDefault := false, version := s.accounts[i].version + 1) else s.accounts[i]
  }

  ghost predicate SupersededEvents(s: State, s': State, partner: nat, except: nat, n: nat) {
    && s.events <= s'.events
    && (forall k :: |s.events| <= k < |s'.events| ==>
          && OtherDefault(s, partner, except, s'.events[k].account) && s'.events[k].account < n
          && var a := s.accounts[s'.events[k].account];
             s'.events[k] == Event(s'.events[k].account, SupersededDefault, Some(a.status), a.status, a.version + 1))
    && (forall i: nat :: i < n && OtherDefault(s, partner, except, i) ==>
          exists k :: |s.events| <= k < |s'.events| && s'.events[k].account == i)
  }

  lemma {:induction false} AccountsAreSuperseded(s: State, partner: nat, except: nat, n: nat)
    requires n <= |s.accounts|
    ensures Superseded(s, SupersedeUpTo(s, partner, except, n), partner, except, n)
  {
    if n > 0 {
      AccountsAreSuperseded(s, partner, except, n - 1);
      assert SupersedeUpTo(s, partner, except, n - 1).accounts[n - 1] == s.accounts[n - 1];
    }
  }

  lemma {:induction false} DefaultsAreSuperseded(s: State, partner: nat, except: nat, n: nat)
    requires n <= |s.accounts|
    ensures var s' := SupersedeUpTo(s, partner, except, n);
            Superseded(s, s', partner, except, n) && SupersededEvents(s, s', partner, except, n)
  {
    AccountsAreSuperseded(s, partner, except, n);
    if n > 0 {
      DefaultsAreSuperseded(s, partner, except, n - 1);
      var before, after := SupersedeUpTo(s, partner, except, n - 1), SupersedeUpTo(s, partner, except, n);
      assert before.accounts[n - 1] == s.accounts[n - 1];
      OneMoreSuperseded(s, before, after, partner, except, n);
    }
  }

  lemma OneMoreSuperseded(s: State, before: State, after: State, partner: nat, except: nat, n: nat)
    requires 0 < n <= |s.accounts| && |before.accounts| == |s.accounts| && before.accounts[n - 1] == s.accounts[n - 1]
    requires SupersededEvents(s, before, partner, except, n - 1) && after == SupersedeOne(before, partner, except, n - 1)
    ensures SupersededEvents(s, after, partner, except, n)
  {
    forall i: nat | i < n && OtherDefault(s, partner, except, i)
      ensures exists k :: |s.events| <= k < |after.events| && after.events[k].account == i
    {
      if i < n - 1 {
        var k :| |s.events| <= k < |before.events| && before.events[k].account == i;
        assert after.events[k] == before.events[k];
      } else {
        assert after.events[|before.events|].account == i;
      }
    }
  }

  ghost predicate MayCommit(s: State, c: Call)
    requires c.CommitCall?
  {
    && c.review < |s.reviews|
    && var r := s.reviews[c.review];
       && r.account < |s.accounts| && s.accounts[r.account].partner < |s.destinationVersions|
       && s.accounts[r.account].status == PendingVerification && s.accounts[r.account].version == r.expectedVersion
       && (r.verify ==> s.destinationVersions[s.accounts[r.account].partner] == r.partnerVersion)
  }

  // A review is written exactly when the account is still as it was seen and, for a verification, so is the supplier's
  // version. A rejection touches its account only; a verification makes it the one default and raises the version.
  lemma CommitsExactly(s: State, c: Call)
    requires c.CommitCall?
    ensures var (s', reply) := Apply(s, c);
            if MayCommit(s, c) then
              var r := s.reviews[c.review];
              var a := s.accounts[r.account];
              && reply == AccountReply(r.account) && |s'.accounts| == |s.accounts| && |s'.events| > |s.events| && s.events <= s'.events
              && s' == s.(accounts := s'.accounts, events := s'.events, destinationVersions := s'.destinationVersions)
              && s'.accounts[r.account] == a.(status := if r.verify then Verified else Rejected, isDefault := r.verify, version := a.version + 1)
              && s'.events[|s'.events| - 1] == Event(r.account, if r.verify then WasVerified else WasRejected, Some(PendingVerification),
                                                     if r.verify then Verified else Rejected, a.version + 1)
              && s'.destinationVersions == (if r.verify then s.destinationVersions[a.partner := s.destinationVersions[a.partner] + 1]
                                            else s.destinationVersions)
              && (forall i: nat :: i < |s.accounts| && i != r.account ==>
                    s'.accounts[i] == if r.verify && OtherDefault(s, a.partner, r.account, i)
                                      then s.accounts[i].(isDefault := false, version := s.accounts[i].version + 1) else s.accounts[i])
              && (!r.verify ==> |s'.events| == |s.events| + 1)
            else s' == s && reply.Refused?
  {
    if MayCommit(s, c) {
      var r := s.reviews[c.review];
      var p := s.accounts[r.account].partner;
      var raised := s.(destinationVersions := s.destinationVersions[p := s.destinationVersions[p] + 1]);
      DefaultsAreSuperseded(raised, p, r.account, |s.accounts|);
      assert forall i: nat :: OtherDefault(raised, p, r.account, i) <==> OtherDefault(s, p, r.account, i);
    }
    hide SupersedeUpTo;
  }

  // ---- refusals ----

  // A refusal names what is so; a review that lost to another decision on the supplier is told apart from a changed account.
  ghost predicate Why(s: State, c: Call, e: Error)
    requires c.RegisterCall? || c.LookCall? || c.CommitCall?
  {
    match e
    case PartnerNotFound =>
      || (c.RegisterCall? && c.partner >= |s.destinationVersions|)
      || (c.LookCall? && c.account < |s.accounts| && s.accounts[c.account].partner >= |s.destinationVersions|)
    case InvalidAccount => c.RegisterCall? && !c.wellFormed
    case UniqueViolation => c.RegisterCall? && exists i :: 0 <= i < |s.accounts| && s.accounts[i].reference == c.reference
    case AccountNotFound =>
      || (c.LookCall? && c.account >= |s.accounts|)
      || (c.CommitCall? && c.review < |s.reviews|
          && !(s.reviews[c.review].account < |s.accounts| && s.accounts[s.reviews[c.review].account].partner < |s.destinationVersions|))
    case ReviewClosed => c.LookCall? && c.account < |s.accounts| && s.accounts[c.account].status != PendingVerification
    case NoReview => c.CommitCall? && c.review >= |s.reviews|
    case DecisionInProgress =>
      c.CommitCall? && c.review < |s.reviews| && s.reviews[c.review].account < |s.accounts|
      && s.accounts[s.reviews[c.review].account].partner < |s.destinationVersions| && s.reviews[c.review].verify
      && s.destinationVersions[s.accounts[s.reviews[c.review].account].partner] != s.reviews[c.review].partnerVersion
    case AccountChanged =>
      || (c.LookCall? && c.account < |s.accounts| && s.accounts[c.account].version != c.expectedVersion)
      || (c.CommitCall? && c.review < |s.reviews| && s.reviews[c.review].account < |s.accounts|
          && (s.accounts[s.reviews[c.review].account].status != PendingVerification
              || s.accounts[s.reviews[c.review].account].version != s.reviews[c.review].expectedVersion))
  }

  lemma RefusedTruly(s: State, c: Call)
    requires (c.RegisterCall? || c.LookCall? || c.CommitCall?) && Apply(s, c).1.Refused?
    ensures Why(s, c, Apply(s, c).1.error)
  {
    if c.CommitCall? && c.review < |s.reviews| && s.reviews[c.review].account < |s.accounts|
       && s.accounts[s.reviews[c.review].account].partner < |s.destinationVersions| {
      var p := s.accounts[s.reviews[c.review].account].partner;
      var raised := s.(destinationVersions := s.destinationVersions[p := s.destinationVersions[p] + 1]);
      AccountsAreSuperseded(raised, p, s.reviews[c.review].account, |s.accounts|);
    }
    hide SupersedeUpTo;
  }
}

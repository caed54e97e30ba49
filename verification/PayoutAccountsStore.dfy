// The payout destination service on its tables changed in place; a failed commit leaves them as they were.

module PayoutAccountsStore {
  import opened Common
  import opened PayoutAccounts
  import opened PayoutAccountsTheorems

  class Store {
    var destinationVersions: seq<nat>
    var accounts: seq<Account>
    var events: seq<Event>
    // Reviews between their reads and their writes.
    var reviews: seq<Review>

    ghost function Contents(): State
      reads this
    {
      State(destinationVersions, accounts, events, reviews)
    }

    constructor ()
      ensures Contents() == EMPTY
    {
      destinationVersions, accounts, events, reviews := [], [], [], [];
    }

    method AddPartner() returns (reply: Reply)
      modifies this
      ensures (Contents(), reply) == Apply(old(Contents()), AddPartnerCall)
    {
      reply := PartnerReply(|destinationVersions|);
      destinationVersions := destinationVersions + [0];
    }

    method Register(partner: nat, reference: string, wellFormed: bool) returns (reply: Reply)
      modifies this
      ensures (Contents(), reply) == PayoutAccounts.Register(old(Contents()), RegisterCall(partner, reference, wellFormed))
    {
      if partner >= |destinationVersions| {
        return Refused(PartnerNotFound);
      }
      if !wellFormed {
        return Refused(InvalidAccount);
      }
      var taken := false;
      for i := 0 to |accounts|
        invariant taken <==> exists k :: 0 <= k < i && accounts[k].reference == reference
      {
        taken := taken || accounts[i].reference == reference;
      }
      if taken {
        return Refused(UniqueViolation);
      }
      var id := |accounts|;
      accounts := accounts + [Account(partner, reference, PendingVerification, false, 1)];
      events := events + [Event(id, Imported, None, PendingVerification, 1)];
      return AccountReply(id);
    }

    method Look(account: nat, verify: bool, expectedVersion: int) returns (reply: Reply)
      modifies this`reviews
      ensures (Contents(), reply) == PayoutAccounts.Look(old(Contents()), LookCall(account, verify, expectedVersion))
      ensures Inv(old(Contents())) ==> Inv(Contents())
    {
      hide Inv;
      if Inv(Contents()) {
        ApplyKeepsInv(Contents(), LookCall(account, verify, expectedVersion));
      }
      if account >= |accounts| {
        return Refused(AccountNotFound);
      }
      if accounts[account].version != expectedVersion {
        return Refused(AccountChanged);
      }
      if accounts[account].status != PendingVerification {
        return Refused(ReviewClosed);
      }
      var partner := accounts[account].partner;
      if partner >= |destinationVersions| {
        return Refused(PartnerNotFound);
      }
      reply := ReviewReply(|reviews|);
      reviews := reviews + [Review(account, verify, expectedVersion, destinationVersions[partner])];
    }

    // Takes the default mark off every other account of the supplier that has it, and records each.
    method SupersedeDefaults(partner: nat, except: nat)
      modifies this`accounts, this`events
      ensures Contents() == SupersedeUpTo(old(Contents()), partner, except, |old(accounts)|)
      ensures |accounts| == |old(accounts)|
      ensures except < |accounts| ==> accounts[except] == old(accounts)[except]
    {
      ghost var before := Contents();
      for i := 0 to |accounts|
        invariant |accounts| == |before.accounts|
        invariant Contents() == SupersedeUpTo(before, partner, except, i)
        invariant except < |accounts| ==> accounts[except] == before.accounts[except]
        invariant reviews == before.reviews && destinationVersions == before.destinationVersions
      {
        var a := accounts[i];
        if i != except && a.partner == partner && a.isDefault {
          accounts := accounts[i := a.(isDefault := false, version := a.version + 1)];
          events := events + [Event(i, SupersededDefault, Some(a.status), a.status, a.version + 1)];
        }
      }
    }

    method Commit(review: nat) returns (reply: Reply)
      modifies this
      ensures (Contents(), reply) == PayoutAccounts.Commit(old(Contents()), CommitCall(review))
    {
      if review >= |reviews| {
        return Refused(NoReview);
      }
      var r := reviews[review];
      if r.account >= |accounts| || accounts[r.account].partner >= |destinationVersions| {
        return Refused(AccountNotFound);
      }
      var p := accounts[r.account].partner;
      if r.verify && destinationVersions[p] != r.partnerVersion {
        return Refused(DecisionInProgress);
      }
      var versionsBefore, accountsBefore, eventsBefore := destinationVersions, accounts, events;
      if r.verify {
        destinationVersions := destinationVersions[p := destinationVersions[p] + 1];
        SupersedeDefaults(p, r.account);
      }
      var a := accounts[r.account];
      if a.status != PendingVerification || a.version != r.expectedVersion {
        destinationVersions, accounts, events := versionsBefore, accountsBefore, eventsBefore;
        return Refused(AccountChanged);
      }
      var status := if r.verify then Verified else Rejected;
      accounts := accounts[r.account := a.(status := status, isDefault := r.verify, version := a.version + 1)];
      events := events + [Event(r.account, if r.verify then WasVerified else WasRejected, Some(a.status), status, a.version + 1)];
      return AccountReply(r.account);
    }
  }
}

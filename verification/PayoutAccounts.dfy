// Payout destinations of suppliers: imported as pending, verified or rejected by a reviewer, one of them the default.
// A review reads first and writes later; its writes are one step because they hold the supplier's row.

module PayoutAccounts {
  import opened Common

  datatype Status = PendingVerification | Verified | Rejected
  datatype Account = Account(partner: nat, reference: string, status: Status, isDefault: bool, version: nat)
  datatype Action = Imported | SupersededDefault | WasVerified | WasRejected
  datatype Event = Event(account: nat, action: Action, from: Option<Status>, to: Status, version: nat)

  // A review after its reads: the account and the supplier's destination version as they were read.
  datatype Review = Review(account: nat, verify: bool, expectedVersion: int, partnerVersion: nat)

  datatype State = State(destinationVersions: seq<nat>, accounts: seq<Account>, events: seq<Event>, reviews: seq<Review>)

  datatype Call =
    | AddPartnerCall
    | RegisterCall(partner: nat, reference: string, wellFormed: bool)
    | LookCall(account: nat, verify: bool, expectedVersion: int)
    | CommitCall(review: nat)

  datatype Error =
    | PartnerNotFound | InvalidAccount | UniqueViolation | AccountNotFound | AccountChanged | ReviewClosed
    | DecisionInProgress | NoReview

  datatype Reply = PartnerReply(partner: nat) | AccountReply(account: nat) | ReviewReply(review: nat) | Refused(error: Error)

  function Register(s: State, c: Call): (State, Reply)
    requires c.RegisterCall?
  {
    if c.partner >= |s.destinationVersions| then (s, Refused(PartnerNotFound))
    else if !c.wellFormed then (s, Refused(InvalidAccount))
    else if exists i :: 0 <= i < |s.accounts| && s.accounts[i].reference == c.reference then (s, Refused(UniqueViolation))
    else
      (s.(accounts := s.accounts + [Account(c.partner, c.reference, PendingVerification, false, 1)],
          events := s.events + [Event(|s.accounts|, Imported, None, PendingVerification, 1)]),
       AccountReply(|s.accounts|))
  }

  function Look(s: State, c: Call): (State, Reply)
    requires c.LookCall?
  {
    if c.account >= |s.accounts| then (s, Refused(AccountNotFound))
    else if s.accounts[c.account].version != c.expectedVersion then (s, Refused(AccountChanged))
    else if s.accounts[c.account].status != PendingVerification then (s, Refused(ReviewClosed))
    else if s.accounts[c.account].partner >= |s.destinationVersions| then (s, Refused(PartnerNotFound))
    else
      var r := Review(c.account, c.verify, c.expectedVersion, s.destinationVersions[s.accounts[c.account].partner]);
      (s.(reviews := s.reviews + [r]), ReviewReply(|s.reviews|))
  }

  // The account stops being the default if it is one of the supplier and not the account under review.
  function SupersedeOne(s: State, partner: nat, except: nat, i: nat): State {
    if i < |s.accounts| && i != except && s.accounts[i].partner == partner && s.accounts[i].isDefault then
      var a := s.accounts[i];
      s.(accounts := s.accounts[i := a.(isDefault := false, version := a.version + 1)],
         events := s.events + [Event(i, SupersededDefault, Some(a.status), a.status, a.version + 1)])
    else s
  }

  function SupersedeUpTo(s: State, partner: nat, except: nat, n: nat): State {
    if n == 0 then s else SupersedeOne(SupersedeUpTo(s, partner, except, n - 1), partner, except, n - 1)
  }

  predicate StillPending(s: State, r: Review) {
    r.account < |s.accounts| && s.accounts[r.account].status == PendingVerification && s.accounts[r.account].version == r.expectedVersion
  }

  function Decide(s: State, r: Review): State
    requires r.account < |s.accounts|
  {
    var a := s.accounts[r.account];
    var to := if r.verify then Verified else Rejected;
    s.(accounts := s.accounts[r.account := a.(status := to, isDefault := r.verify, version := a.version + 1)],
       events := s.events + [Event(r.account, if r.verify then WasVerified else WasRejected, Some(a.status), to, a.version + 1)])
  }

  // The supplier's version is compared and raised first, then the old defaults go, then the account is decided.
  function Commit(s: State, c: Call): (State, Reply)
    requires c.CommitCall?
  {
    if c.review >= |s.reviews| then (s, Refused(NoReview))
    else
      var r := s.reviews[c.review];
      if r.account >= |s.accounts| || s.accounts[r.account].partner >= |s.destinationVersions| then (s, Refused(AccountNotFound))
      else
        var p := s.accounts[r.account].partner;
        if r.verify && s.destinationVersions[p] != r.partnerVersion then (s, Refused(DecisionInProgress))
        else if !StillPending(s, r) then (s, Refused(AccountChanged))
        else if r.verify then
          var raised := s.(destinationVersions := s.destinationVersions[p := s.destinationVersions[p] + 1]);
          var s1 := SupersedeUpTo(raised, p, r.account, |s.accounts|);
          if r.account >= |s1.accounts| then (s, Refused(AccountChanged)) else (Decide(s1, r), AccountReply(r.account))
        else (Decide(s, r), AccountReply(r.account))
  }

  function Apply(s: State, c: Call): (State, Reply) {
    if c.AddPartnerCall? then (s.(destinationVersions := s.destinationVersions + [0]), PartnerReply(|s.destinationVersions|))
    else if c.RegisterCall? then Register(s, c)
    else if c.LookCall? then Look(s, c)
    else Commit(s, c)
  }

  function Run(s: State, calls: seq<Call>): State {
    if calls == [] then s else Apply(Run(s, calls[..|calls| - 1]), calls[|calls| - 1]).0
  }

  const EMPTY := State([], [], [], [])
}

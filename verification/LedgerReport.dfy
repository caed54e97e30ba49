// The account summary over a list of postings, and what it says of a partner's journals.

module LedgerReport {
  import opened Common
  import opened Sums
  import opened Ledger
  import opened LedgerTheorems

  const MAX_SAFE_INTEGER := 9_007_199_254_740_991

  predicate Counts(p: Posting) { 0 <= p.amount <= MAX_SAFE_INTEGER }

  // One side of one account over the postings that count.
  function SideOf(ps: seq<Posting>, a: Account, debit: bool): int {
    if ps == [] then 0
    else
      var last := ps[|ps| - 1];
      SideOf(ps[..|ps| - 1], a, debit) + if Counts(last) && last.account == a && last.debit == debit then last.amount else 0
  }

  function CountedTotal(ps: seq<Posting>, debit: bool): int {
    if ps == [] then 0
    else
      var last := ps[|ps| - 1];
      CountedTotal(ps[..|ps| - 1], debit) + if Counts(last) && last.debit == debit then last.amount else 0
  }

  function CountedPart(p: Posting, debit: bool): int { if Counts(p) && p.debit == debit then p.amount else 0 }

  lemma SidesStep(ps: seq<Posting>, i: nat)
    requires i < |ps|
    ensures forall a, debit ::
              SideOf(ps[..i + 1], a, debit)
              == SideOf(ps[..i], a, debit) + if ps[i].account == a then CountedPart(ps[i], debit) else 0
    ensures forall debit :: CountedTotal(ps[..i + 1], debit) == CountedTotal(ps[..i], debit) + CountedPart(ps[i], debit)
    ensures forall a, debit :: SideOf(ps[..0], a, debit) == 0
  {
    assert ps[..i + 1][..i] == ps[..i];
  }

  ghost predicate Summary(ps: seq<Posting>, accounts: map<Account, (int, int)>) {
    && (forall a :: a in accounts <==> exists i :: 0 <= i < |ps| && ps[i].account == a && Counts(ps[i]))
    && (forall a :: a in accounts ==> accounts[a] == (SideOf(ps, a, true), SideOf(ps, a, false)))
    && (forall a :: a !in accounts ==> SideOf(ps, a, true) == 0 == SideOf(ps, a, false))
  }

  // Adds a posting that counts to its account.
  method AddPosting(accounts: map<Account, (int, int)>, p: Posting, ghost before: seq<Posting>) returns (r: map<Account, (int, int)>)
    requires Counts(p) && Summary(before, accounts)
    ensures Summary(before + [p], r)
  {
    assert forall a, debit :: SideOf(before + [p], a, debit) == SideOf(before, a, debit) + if p.account == a then CountedPart(p, debit) else 0 by {
      SidesStep(before + [p], |before|);
      assert (before + [p])[..|before| + 1] == before + [p] && (before + [p])[..|before|] == before;
    }
    hide SideOf;
    var account := if p.account in accounts then accounts[p.account] else (0, 0);
    account := if p.debit then (account.0 + p.amount, account.1) else (account.0, account.1 + p.amount);
    r := accounts[p.account := account];
    forall a ensures a in r <==> exists i :: 0 <= i < |before + [p]| && (before + [p])[i].account == a && Counts((before + [p])[i]) {
      if a == p.account {
        assert (before + [p])[|before|] == p;
      } else if a in accounts {
        var i :| 0 <= i < |before| && before[i].account == a && Counts(before[i]);
        assert (before + [p])[i] == before[i];
      }
    }
  }

  // The report's loop over the postings: per account both sides, and the two totals.
  method Summarize(ps: seq<Posting>) returns (accounts: map<Account, (int, int)>, totalDebit: int, totalCredit: int, balanced: bool)
    ensures Summary(ps, accounts)
    ensures totalDebit == CountedTotal(ps, true) && totalCredit == CountedTotal(ps, false)
    ensures balanced <==> CountedTotal(ps, true) == CountedTotal(ps, false)
  {
    accounts, totalDebit, totalCredit := map[], 0, 0;
    for i := 0 to |ps|
      invariant Summary(ps[..i], accounts)
      invariant totalDebit == CountedTotal(ps[..i], true) && totalCredit == CountedTotal(ps[..i], false)
    {
      var p := ps[i];
      SidesStep(ps, i);
      hide CountedTotal;
      if p.amount < 0 || p.amount > MAX_SAFE_INTEGER {
        SkippedPosting(ps, i, accounts);
        continue;
      }
      accounts := AddPosting(accounts, p, ps[..i]);
      assert ps[..i] + [p] == ps[..i + 1];
      if p.debit {
        totalDebit := totalDebit + p.amount;
      } else {
        totalCredit := totalCredit + p.amount;
      }
    }
    assert ps[..|ps|] == ps;
    balanced := totalDebit == totalCredit;
  }

  // A side of an account is the sum of its postings of that direction whose amount is a safe integer, zero included.
  ghost function SideTerm(ps: seq<Posting>, a: Account, debit: bool): nat -> int {
    (i: nat) =>
      if i < |ps| && 0 <= ps[i].amount <= 9_007_199_254_740_991 && ps[i].account == a && ps[i].debit == debit then ps[i].amount else 0
  }

  ghost function TotalTerm(ps: seq<Posting>, debit: bool): nat -> int {
    (i: nat) => if i < |ps| && 0 <= ps[i].amount <= 9_007_199_254_740_991 && ps[i].debit == debit then ps[i].amount else 0
  }

  lemma {:induction false} SidesAreSums(ps: seq<Posting>, a: Account, debit: bool)
    ensures SideOf(ps, a, debit) == Sum(SideTerm(ps, a, debit), |ps|)
    ensures CountedTotal(ps, debit) == Sum(TotalTerm(ps, debit), |ps|)
  {
    if ps != [] {
      var before := ps[..|ps| - 1];
      SidesAreSums(before, a, debit);
      SumSame(SideTerm(before, a, debit), SideTerm(ps, a, debit), |before|);
      SumSame(TotalTerm(before, debit), TotalTerm(ps, debit), |before|);
    }
  }

  // The accounts of a summary are those with such a posting.
  lemma SummaryListsItsAccounts(ps: seq<Posting>, accounts: map<Account, (int, int)>, a: Account)
    requires Summary(ps, accounts)
    ensures a in accounts <==> exists i :: 0 <= i < |ps| && ps[i].account == a && 0 <= ps[i].amount <= 9_007_199_254_740_991
    ensures a in accounts ==>
              accounts[a] == (Sum(SideTerm(ps, a, true), |ps|), Sum(SideTerm(ps, a, false), |ps|))
  {
    SidesAreSums(ps, a, true);
    SidesAreSums(ps, a, false);
  }

  lemma SkippedPosting(ps: seq<Posting>, i: nat, accounts: map<Account, (int, int)>)
    requires i < |ps| && !Counts(ps[i]) && Summary(ps[..i], accounts)
    ensures Summary(ps[..i + 1], accounts)
  {
    SidesStep(ps, i);
    hide SideOf;
    var shorter, longer := ps[..i], ps[..i + 1];
    forall a | a in accounts ensures exists k :: 0 <= k < |longer| && longer[k].account == a && Counts(longer[k]) {
      var k :| 0 <= k < |shorter| && shorter[k].account == a && Counts(shorter[k]);
      assert longer[k] == shorter[k];
    }
    forall k | 0 <= k < |longer| && Counts(longer[k]) ensures longer[k].account in accounts {
      assert shorter[k] == longer[k];
    }
  }

  // Every posting of a partner, journal after journal.
  function PostingsOf(js: seq<Journal>, partner: nat): seq<Posting> {
    if js == [] then []
    else PostingsOf(js[..|js| - 1], partner) + if js[|js| - 1].partner == partner then js[|js| - 1].postings else []
  }

  lemma {:induction false} SidesOfTwo(ps: seq<Posting>, more: seq<Posting>, a: Account)
    requires Sized(more)
    ensures CountedTotal(ps + more, true) == CountedTotal(ps, true) + TotalOf(more, true)
    ensures CountedTotal(ps + more, false) == CountedTotal(ps, false) + TotalOf(more, false)
    ensures SideOf(ps + more, a, true) - SideOf(ps + more, a, false) == SideOf(ps, a, true) - SideOf(ps, a, false) + NetOf(more, a)
  {
    if more == [] {
      assert ps + more == ps;
    } else {
      SidesOfTwo(ps, more[..|more| - 1], a);
      assert (ps + more)[..|ps + more| - 1] == ps + more[..|more| - 1];
    }
  }

  lemma {:induction false} ReportUpTo(s: Books, partner: nat, a: Account, n: nat)
    requires JournalsOk(s) && n <= |s.journals|
    ensures var ps := PostingsOf(s.journals[..n], partner);
            && CountedTotal(ps, true) == CountedTotal(ps, false)
            && SideOf(ps, a, true) - SideOf(ps, a, false) == Sum(NetTerm(s.journals, partner, a), n)
  {
    if n > 0 {
      ReportUpTo(s, partner, a, n - 1);
      assert s.journals[..n][..n - 1] == s.journals[..n - 1];
      assert JournalOk(s, n - 1);
      var before, j := PostingsOf(s.journals[..n - 1], partner), s.journals[n - 1];
      if j.partner == partner {
        assert PostingsOf(s.journals[..n], partner) == before + j.postings;
        SidesOfTwo(before, j.postings, a);
      } else {
        assert PostingsOf(s.journals[..n], partner) == before;
      }
    }
  }

  // The report over a partner's postings is balanced in every run, and per account debit less credit is what stands.
  lemma {:induction false} ReportsBalance(calls: seq<Call>, partner: nat, a: Account)
    ensures var s := Run(EMPTY, calls);
            var ps := PostingsOf(s.journals, partner);
            && CountedTotal(ps, true) == CountedTotal(ps, false)
            && SideOf(ps, a, true) - SideOf(ps, a, false) == Standing(s, partner, a)
  {
    hide Run;
    RunKeepsInv(calls);
    var s := Run(EMPTY, calls);
    ReportUpTo(s, partner, a, |s.journals|);
    assert s.journals[..|s.journals|] == s.journals;
    assert AccountNet(s, partner, a) == Standing(s, partner, a);
  }
}

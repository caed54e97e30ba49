// The journals balance, and what they say is what the unreversed expenses and the posted payroll alone would say.

module LedgerTheorems {
  import opened Common
  import opened Sums
  import opened Ledger

  // ---- postings ----

  lemma {:induction false} FlippedNet(ps: seq<Posting>, a: Account)
    ensures NetOf(Flipped(ps), a) == -NetOf(ps, a)
  {
    if ps != [] {
      FlippedNet(ps[..|ps| - 1], a);
      assert Flipped(ps)[..|ps| - 1] == Flipped(ps[..|ps| - 1]);
    }
  }

  lemma {:induction false} FlippedTotals(ps: seq<Posting>, debit: bool)
    ensures TotalOf(Flipped(ps), debit) == TotalOf(ps, !debit)
  {
    if ps != [] {
      FlippedTotals(ps[..|ps| - 1], debit);
      assert Flipped(ps)[..|ps| - 1] == Flipped(ps[..|ps| - 1]);
    }
  }

  lemma ExpenseTotals(category: Category, amount: int, a: Account)
    ensures var ps := ExpensePostings(category, amount);
            && TotalOf(ps, true) == amount && TotalOf(ps, false) == amount
            && NetOf(ps, a) == if a == ExpenseOf(category) then amount else if a == CashAndBank then -amount else 0
  {
    var ps := ExpensePostings(category, amount);
    assert ps[..1] == [ps[0]] && ps[..1][..0] == [];
    assert TotalOf(ps[..1], true) == amount && TotalOf(ps[..1], false) == 0;
    assert NetOf(ps[..1], a) == if a == ExpenseOf(category) then amount else 0;
  }

  lemma PayrollTotals(r: Record, a: Account)
    requires 0 <= r.deduction < r.gross && r.net == r.gross - r.deduction
    ensures var ps := PayrollPostings(r.gross, r.deduction);
            && TotalOf(ps, true) == r.gross && TotalOf(ps, false) == r.gross
            && NetOf(ps, a) == PayNet(r, a)
  {
    var ps := PayrollPostings(r.gross, r.deduction);
    var first := [Posting(ExpensePayroll, r.gross, true)];
    assert first[..0] == [];
    assert TotalOf(first, true) == r.gross && TotalOf(first, false) == 0;
    assert NetOf(first, a) == if a == ExpensePayroll then r.gross else 0;
    if r.deduction != 0 {
      var two := first + [Posting(PayrollDeductions, r.deduction, false)];
      assert two[..1] == first && ps[..2] == two;
      assert TotalOf(two, true) == r.gross && TotalOf(two, false) == r.deduction;
    } else {
      assert ps[..1] == first;
    }
  }

  // ---- the invariant ----

  ghost predicate Sized(ps: seq<Posting>) {
    forall i :: 0 <= i < |ps| ==> 1 <= ps[i].amount <= MAX_AMOUNT
  }

  ghost predicate JournalOk(s: Books, i: nat)
    requires i < |s.journals|
  {
    var j := s.journals[i];
    && TotalOf(j.postings, true) == j.totalDebit == j.totalCredit == TotalOf(j.postings, false) && Sized(j.postings)
    && (j.source.ExpenseReversal? ==> ReversesExpense(s, j))
    && (j.source.PayrollSource? || j.source.PayrollReversal? ==> j.source.record < |s.records|)
    && (j.source.PayrollReversal? ==> s.records[j.source.record].status == Reversed)
  }

  ghost predicate ReversesExpense(s: Books, j: Journal)
    requires j.source.ExpenseReversal?
  {
    var o := j.source.journal;
    && o < |s.journals| && s.journals[o].source.ExpenseSource? && s.journals[o].source.property == j.source.property
    && s.journals[o].partner == j.partner && j.postings == Flipped(s.journals[o].postings)
  }

  ghost predicate RecordOk(s: Books, r: nat)
    requires r < |s.records|
  {
    var rec := s.records[r];
    && 0 <= rec.deduction < rec.gross <= MAX_AMOUNT && rec.net == rec.gross - rec.deduction && rec.version >= 1
    && var found := JournalOf(s.journals, PayrollSource(rec.property, r));
       && found.Some? && s.journals[found.value].partner == rec.partner
       && s.journals[found.value].postings == PayrollPostings(rec.gross, rec.deduction)
       && s.journals[found.value].totalDebit == s.journals[found.value].totalCredit == rec.gross
  }

  // Of the same pay: revisions differ, only the highest can be posted, and none is missing below it.
  ghost predicate RevisionsOk(rs: seq<Record>) {
    && (forall i :: 0 <= i < |rs| ==> rs[i].revision >= 1)
    && (forall i, j :: 0 <= i < j < |rs| && SamePay(rs[i], rs[j].partner, rs[j].member, rs[j].period) ==>
          rs[i].revision < rs[j].revision && rs[i].status == Reversed)
  }

  // A draft holds a revision that is free only while it is the next one.
  ghost predicate DraftOk(rs: seq<Record>, d: Draft) {
    && 0 <= d.deduction < d.gross <= MAX_AMOUNT && d.revision >= 1
    && (d.revision > 1 ==> RevisionTaken(rs, d.partner, d.member, d.period, d.revision - 1))
    && (forall i :: 0 <= i < |rs| && SamePay(rs[i], d.partner, d.member, d.period) && rs[i].revision < d.revision ==> rs[i].status == Reversed)
    && (forall i :: 0 <= i < |rs| && SamePay(rs[i], d.partner, d.member, d.period) && rs[i].revision > d.revision ==>
          RevisionTaken(rs, d.partner, d.member, d.period, d.revision))
  }

  ghost predicate JournalsOk(s: Books) {
    && (forall i: nat :: i < |s.journals| ==> JournalOk(s, i))
    && (forall i, j :: 0 <= i < j < |s.journals| ==> s.journals[i].source != s.journals[j].source)
  }

  ghost predicate PayOk(s: Books) {
    && (forall r: nat :: r < |s.records| ==> RecordOk(s, r))
    && RevisionsOk(s.records)
    && (forall d :: 0 <= d < |s.drafts| ==> DraftOk(s.records, s.drafts[d]))
  }

  ghost predicate Agrees(s: Books) {
    forall partner: nat, a :: AccountNet(s, partner, a) == Standing(s, partner, a)
  }

  ghost predicate Inv(s: Books) {
    JournalsOk(s) && PayOk(s) && Agrees(s)
  }

  // ---- sums under one more journal ----

  lemma NetAppend(js: seq<Journal>, j: Journal, partner: nat, a: Account)
    ensures Sum(NetTerm(js + [j], partner, a), |js| + 1)
            == Sum(NetTerm(js, partner, a), |js|) + if j.partner == partner then NetOf(j.postings, a) else 0
  {
    SumSame(NetTerm(js, partner, a), NetTerm(js + [j], partner, a), |js|);
  }

  // A journal that reverses no expense leaves the standing of the others.
  lemma ExpensesAppend(s: Books, s': Books, partner: nat, a: Account)
    requires |s'.journals| == |s.journals| + 1 && s.journals == s'.journals[..|s.journals|]
    requires !s'.journals[|s.journals|].source.ExpenseReversal?
    requires !ExpenseReversed(s.journals, |s.journals|)
    ensures Sum(ExpenseTerm(s', partner, a), |s'.journals|)
            == Sum(ExpenseTerm(s, partner, a), |s.journals|)
               + var j := s'.journals[|s.journals|];
                 if j.partner == partner && j.source.ExpenseSource? then NetOf(j.postings, a) else 0
  {
    var n := |s.journals|;
    assert forall k :: 0 <= k < n ==> s'.journals[k] == s.journals[k];
    forall i: nat | i <= n ensures ExpenseReversed(s'.journals, i) <==> ExpenseReversed(s.journals, i) {
      if ExpenseReversed(s.journals, i) {
        var k :| 0 <= k < n && s.journals[k].source.ExpenseReversal? && s.journals[k].source.journal == i;
        assert s'.journals[k] == s.journals[k];
      }
    }
    SumSame(ExpenseTerm(s, partner, a), ExpenseTerm(s', partner, a), n);
  }

  lemma NothingReversedYet(s: Books)
    requires JournalsOk(s)
    ensures !ExpenseReversed(s.journals, |s.journals|)
  {
    forall k: nat | k < |s.journals| && s.journals[k].source.ExpenseReversal? ensures s.journals[k].source.journal != |s.journals| {
      assert JournalOk(s, k);
    }
  }

  lemma SamePayTerms(s: Books, s': Books, partner: nat, a: Account)
    requires s'.records == s.records
    ensures Sum(PayTerm(s', partner, a), |s'.records|) == Sum(PayTerm(s, partner, a), |s.records|)
  {
    SumSame(PayTerm(s, partner, a), PayTerm(s', partner, a), |s.records|);
  }

  // Journals are found where they were after one more is appended.
  lemma FoundAfterAppend(js: seq<Journal>, j: Journal, source: Source)
    requires j.source != source || JournalOf(js, source).None?
    ensures JournalOf(js + [j], source) == if j.source == source then Some(|js|) else JournalOf(js, source)
  {
    assert (js + [j])[..|js|] == js;
  }

  // ---- journals ----

  ghost predicate NewJournalOk(s: Books, j: Journal) {
    && TotalOf(j.postings, true) == j.totalDebit == j.totalCredit == TotalOf(j.postings, false) && Sized(j.postings)
    && JournalOf(s.journals, j.source).None?
    && (j.source.ExpenseReversal? ==> ReversesExpense(s, j))
  }

  lemma JournalAppended(s: Books, s': Books, j: Journal)
    requires JournalsOk(s) && NewJournalOk(s, j) && s'.journals == s.journals + [j] && |s.records| <= |s'.records|
    requires forall r :: 0 <= r < |s.records| && s.records[r].status == Reversed ==> s'.records[r].status == Reversed
    requires j.source.PayrollSource? || j.source.PayrollReversal? ==> j.source.record < |s'.records|
    requires j.source.PayrollReversal? ==> s'.records[j.source.record].status == Reversed
    ensures JournalsOk(s')
  {
    forall i: nat | i < |s'.journals| ensures JournalOk(s', i) {
      if i < |s.journals| {
        assert JournalOk(s, i);
        assert s'.journals[i] == s.journals[i];
      } else if j.source.ExpenseReversal? {
        assert s'.journals[j.source.journal] == s.journals[j.source.journal];
      }
    }
  }

  lemma PayUnderJournal(s: Books, s': Books, j: Journal)
    requires PayOk(s) && s' == s.(journals := s.journals + [j]) && JournalOf(s.journals, j.source).None?
    ensures PayOk(s')
  {
    forall r: nat | r < |s'.records| ensures RecordOk(s', r) {
      assert RecordOk(s, r);
      FoundAfterAppend(s.journals, j, PayrollSource(s.records[r].property, r));
    }
  }

  // ---- expenses ----

  lemma ExpenseKeepsInv(s: Books, c: Call)
    requires Inv(s) && c.ExpenseCall?
    ensures Inv(PostExpense(s, c).0)
  {
    var s' := PostExpense(s, c).0;
    if s' != s {
      var j := s'.journals[|s.journals|];
      ExpenseTotals(c.category.value, c.amount, CashAndBank);
      hide TotalOf, NetOf;
      JournalAppended(s, s', j);
      PayUnderJournal(s, s', j);
      NothingReversedYet(s);
      forall partner: nat, a ensures AccountNet(s', partner, a) == Standing(s', partner, a) {
        NetAppend(s.journals, j, partner, a);
        ExpensesAppend(s, s', partner, a);
        SamePayTerms(s, s', partner, a);
        assert AccountNet(s, partner, a) == Standing(s, partner, a);
      }
    }
  }

  // Reversing an expense takes exactly its term out of the standing.
  lemma ReversalTakesItsTerm(s: Books, s': Books, o: nat, partner: nat, a: Account)
    requires JournalsOk(s) && o < |s.journals| && s.journals[o].source.ExpenseSource? && !ExpenseReversed(s.journals, o)
    requires |s'.journals| == |s.journals| + 1 && s.journals == s'.journals[..|s.journals|]
    requires s'.journals[|s.journals|].source.ExpenseReversal? && s'.journals[|s.journals|].source.journal == o
    ensures Sum(ExpenseTerm(s', partner, a), |s'.journals|)
            == Sum(ExpenseTerm(s, partner, a), |s.journals|) - if s.journals[o].partner == partner then NetOf(s.journals[o].postings, a) else 0
  {
    var n := |s.journals|;
    assert forall k :: 0 <= k < n ==> s'.journals[k] == s.journals[k];
    forall i: nat | i < n && i != o ensures ExpenseReversed(s'.journals, i) <==> ExpenseReversed(s.journals, i) {
      if ExpenseReversed(s.journals, i) {
        var k :| 0 <= k < n && s.journals[k].source.ExpenseReversal? && s.journals[k].source.journal == i;
        assert s'.journals[k] == s.journals[k];
      }
    }
    assert ExpenseReversed(s'.journals, o);
    SumChangedAt(ExpenseTerm(s, partner, a), ExpenseTerm(s', partner, a), o, n);
  }

  // The unique source makes each expense reversed at most once, whatever property id its source carries.
  lemma UnreversedUntilNow(s: Books, o: nat)
    requires JournalsOk(s) && o < |s.journals| && s.journals[o].source.ExpenseSource?
    requires JournalOf(s.journals, ExpenseReversal(s.journals[o].source.property, o)).None?
    ensures !ExpenseReversed(s.journals, o)
  {
    forall k: nat | k < |s.journals| && s.journals[k].source.ExpenseReversal? ensures s.journals[k].source.journal != o {
      assert JournalOk(s, k);
    }
  }

  lemma ReverseExpenseKeepsInv(s: Books, c: Call)
    requires Inv(s) && c.ReverseExpenseCall?
    ensures Inv(ReverseExpense(s, c).0)
  {
    var s' := ReverseExpense(s, c).0;
    if s' != s {
      var original, j := s.journals[c.journal], s'.journals[|s.journals|];
      assert JournalOk(s, c.journal);
      FlippedTotals(original.postings, true);
      FlippedTotals(original.postings, false);
      hide TotalOf, NetOf, Flipped;
      JournalAppended(s, s', j);
      PayUnderJournal(s, s', j);
      UnreversedUntilNow(s, c.journal);
      forall partner: nat, a ensures AccountNet(s', partner, a) == Standing(s', partner, a) {
        FlippedNet(original.postings, a);
        NetAppend(s.journals, j, partner, a);
        ReversalTakesItsTerm(s, s', c.journal, partner, a);
        SamePayTerms(s, s', partner, a);
        assert AccountNet(s, partner, a) == Standing(s, partner, a);
      }
    }
  }

  // ---- payroll ----

  lemma LookKeepsInv(s: Books, c: Call)
    requires Inv(s) && c.LookCall?
    ensures Inv(Look(s, c).0)
  {
    var s' := Look(s, c).0;
    if s' != s {
      assert s'.journals == s.journals && s'.records == s.records;
      LookedRevision(s, c);
      forall i: nat | i < |s'.journals| ensures JournalOk(s', i) {
        assert JournalOk(s, i);
      }
      forall r: nat | r < |s'.records| ensures RecordOk(s', r) {
        assert RecordOk(s, r);
      }
      forall partner: nat, a ensures AccountNet(s', partner, a) == Standing(s', partner, a) {
        assert AccountNet(s, partner, a) == Standing(s, partner, a);
        SumSame(ExpenseTerm(s, partner, a), ExpenseTerm(s', partner, a), |s.journals|);
        SamePayTerms(s, s', partner, a);
      }
    }
  }

  // The revision a look computes is the next one, and everything below it is reversed.
  lemma LookedRevision(s: Books, c: Call)
    requires PayOk(s) && c.LookCall? && Look(s, c).1.DraftReply?
    ensures DraftOk(s.records, Look(s, c).0.drafts[|s.drafts|])
  {
    hide RevisionsOk;
    var d := Look(s, c).0.drafts[|s.drafts|];
    var latest := LatestRecord(s.records, c.partner, c.member, c.period);
    forall i: nat | i < |s.records| && SamePay(s.records[i], d.partner, d.member, d.period) ensures s.records[i].status == Reversed {
      if i < latest.value {
        LaterIsHigher(s.records, i, latest.value);
      } else if latest.value < i {
        LaterIsHigher(s.records, latest.value, i);
      }
    }
  }

  lemma LaterIsHigher(rs: seq<Record>, i: nat, j: nat)
    requires RevisionsOk(rs) && i < j < |rs| && SamePay(rs[i], rs[j].partner, rs[j].member, rs[j].period)
    ensures rs[i].revision < rs[j].revision && rs[i].status == Reversed
  {
  }

  // A draft whose revision is still free comes right after the highest one, which is reversed.
  lemma FreeRevisionIsNext(rs: seq<Record>, d: Draft, i: nat)
    requires DraftOk(rs, d) && !RevisionTaken(rs, d.partner, d.member, d.period, d.revision)
    requires i < |rs| && SamePay(rs[i], d.partner, d.member, d.period)
    ensures rs[i].revision < d.revision && rs[i].status == Reversed
  {
  }

  lemma WriteKeepsPay(s: Books, c: Call)
    requires PayOk(s) && JournalsOk(s) && c.WriteCall? && Write(s, c).1.RecordReply?
    ensures PayOk(Write(s, c).0)
  {
    var s' := Write(s, c).0;
    var d, id := s.drafts[c.draft], |s.records|;
    var rec, j := s'.records[id], s'.journals[|s.journals|];
    NewPayrollSource(s, rec.property);
    forall r: nat | r < |s'.records| ensures RecordOk(s', r) {
      FoundAfterAppend(s.journals, j, PayrollSource(s'.records[r].property, r));
      if r < id {
        assert RecordOk(s, r);
      }
    }
    forall i | 0 <= i < id && SamePay(s'.records[i], rec.partner, rec.member, rec.period)
      ensures s'.records[i].revision < rec.revision && s'.records[i].status == Reversed
    {
      FreeRevisionIsNext(s.records, d, i);
    }
    forall e | 0 <= e < |s'.drafts| ensures DraftOk(s'.records, s'.drafts[e]) {
      DraftAfterWrite(s, c, e);
    }
  }

  lemma NewPayrollSource(s: Books, property: nat)
    requires JournalsOk(s)
    ensures JournalOf(s.journals, PayrollSource(property, |s.records|)).None?
  {
    forall k: nat | k < |s.journals| ensures s.journals[k].source != PayrollSource(property, |s.records|) {
      assert JournalOk(s, k);
    }
  }

  lemma DraftAfterWrite(s: Books, c: Call, e: nat)
    requires PayOk(s) && c.WriteCall? && Write(s, c).1.RecordReply? && e < |s.drafts|
    ensures DraftOk(Write(s, c).0.records, s.drafts[e])
  {
    var rs, rs', d, other := s.records, Write(s, c).0.records, s.drafts[c.draft], s.drafts[e];
    assert DraftOk(rs, d) && DraftOk(rs, other);
    assert rs'[..|rs|] == rs;
    if other.revision > 1 {
      assert RevisionTaken(rs, other.partner, other.member, other.period, other.revision - 1);
      StillTaken(rs, rs', other, other.revision - 1);
    }
    if other.partner == d.partner && other.member == d.member && other.period == d.period && d.revision != other.revision {
      RevisionsBelow(rs, d, other);
      if RevisionTaken(rs, other.partner, other.member, other.period, other.revision) {
        StillTaken(rs, rs', other, other.revision);
      }
    }
    forall i | 0 <= i < |rs'| && SamePay(rs'[i], other.partner, other.member, other.period) && rs'[i].revision > other.revision
      ensures RevisionTaken(rs', other.partner, other.member, other.period, other.revision)
    {
      if i < |rs| {
        assert rs'[i] == rs[i];
        StillTaken(rs, rs', other, other.revision);
      }
    }
  }

  lemma StillTaken(rs: seq<Record>, rs': seq<Record>, d: Draft, revision: nat)
    requires rs <= rs' && RevisionTaken(rs, d.partner, d.member, d.period, revision)
    ensures RevisionTaken(rs', d.partner, d.member, d.period, revision)
  {
    var i :| 0 <= i < |rs| && SamePay(rs[i], d.partner, d.member, d.period) && rs[i].revision == revision;
    assert rs'[i] == rs[i];
  }

  // Two drafts of the same pay: the one whose revision is free is not below the other, and the other is taken if it is below.
  lemma RevisionsBelow(rs: seq<Record>, d: Draft, other: Draft)
    requires DraftOk(rs, d) && DraftOk(rs, other) && d.partner == other.partner && d.member == other.member && d.period == other.period
    requires !RevisionTaken(rs, d.partner, d.member, d.period, d.revision) && d.revision != other.revision
    ensures other.revision < d.revision && RevisionTaken(rs, d.partner, d.member, d.period, other.revision)
  {
    if other.revision > 1 {
      assert RevisionTaken(rs, d.partner, d.member, d.period, other.revision - 1);
      var i :| 0 <= i < |rs| && SamePay(rs[i], d.partner, d.member, d.period) && rs[i].revision == other.revision - 1;
      assert !(rs[i].revision > d.revision) && rs[i].revision != d.revision;
    }
    assert other.revision < d.revision;
    assert RevisionTaken(rs, d.partner, d.member, d.period, d.revision - 1);
    var k :| 0 <= k < |rs| && SamePay(rs[k], d.partner, d.member, d.period) && rs[k].revision == d.revision - 1;
    assert rs[k].revision > other.revision ==> RevisionTaken(rs, d.partner, d.member, d.period, other.revision);
  }

  lemma WriteKeepsAgreement(s: Books, c: Call, partner: nat, a: Account)
    requires JournalsOk(s) && PayOk(s) && c.WriteCall? && Write(s, c).1.RecordReply?
    requires AccountNet(s, partner, a) == Standing(s, partner, a)
    ensures AccountNet(Write(s, c).0, partner, a) == Standing(Write(s, c).0, partner, a)
  {
    var s' := Write(s, c).0;
    assert DraftOk(s.records, s.drafts[c.draft]);
    hide PayOk, DraftOk;
    PayrollTotals(s'.records[|s.records|], a);
    NothingReversedYet(s);
    hide JournalsOk, TotalOf, NetOf, PayrollPostings, RevisionTaken, SamePay, ExpenseReversed, NetTerm, ExpenseTerm;
    NetAppend(s.journals, s'.journals[|s.journals|], partner, a);
    ExpensesAppend(s, s', partner, a);
    SumSame(PayTerm(s, partner, a), PayTerm(s', partner, a), |s.records|);
  }

  lemma WriteKeepsInv(s: Books, c: Call)
    requires Inv(s) && c.WriteCall?
    ensures Inv(Write(s, c).0)
  {
    var s' := Write(s, c).0;
    if s' != s {
      var rec := s'.records[|s.records|];
      assert DraftOk(s.records, s.drafts[c.draft]);
      WriteKeepsPay(s, c);
      PayrollTotals(rec, CashAndBank);
      NewPayrollSource(s, rec.property);
      hide TotalOf, NetOf, PayOk, DraftOk;
      JournalAppended(s, s', s'.journals[|s.journals|]);
      forall partner: nat, a ensures AccountNet(s', partner, a) == Standing(s', partner, a) {
        WriteKeepsAgreement(s, c, partner, a);
      }
    }
  }

  lemma ReversePayrollKeepsPay(s: Books, c: Call)
    requires PayOk(s) && c.ReversePayrollCall? && ReversePayroll(s, c).1.RecordReply?
    ensures PayOk(ReversePayroll(s, c).0)
  {
    var s' := ReversePayroll(s, c).0;
    var j := s'.journals[|s.journals|];
    forall r: nat | r < |s'.records| ensures RecordOk(s', r) {
      assert RecordOk(s, r);
      FoundAfterAppend(s.journals, j, PayrollSource(s.records[r].property, r));
    }
    forall d | 0 <= d < |s'.drafts| ensures DraftOk(s'.records, s'.drafts[d]) {
      DraftUnderStatus(s.records, s'.records, s.drafts[d], c.record);
    }
  }

  lemma DraftUnderStatus(rs: seq<Record>, rs': seq<Record>, d: Draft, r: nat)
    requires DraftOk(rs, d) && r < |rs| == |rs'| && rs' == rs[r := rs'[r]] && rs'[r].status == Reversed
    requires rs'[r] == rs[r].(status := Reversed, version := rs'[r].version)
    ensures DraftOk(rs', d)
  {
    forall revision | RevisionTaken(rs, d.partner, d.member, d.period, revision) ensures RevisionTaken(rs', d.partner, d.member, d.period, revision) {
      var i :| 0 <= i < |rs| && SamePay(rs[i], d.partner, d.member, d.period) && rs[i].revision == revision;
      assert SamePay(rs'[i], d.partner, d.member, d.period) && rs'[i].revision == revision;
    }
    forall i | 0 <= i < |rs'| && SamePay(rs'[i], d.partner, d.member, d.period) && rs'[i].revision > d.revision
      ensures RevisionTaken(rs', d.partner, d.member, d.period, d.revision)
    {
      assert SamePay(rs[i], d.partner, d.member, d.period) && rs[i].revision > d.revision;
    }
    forall i | 0 <= i < |rs'| && SamePay(rs'[i], d.partner, d.member, d.period) && rs'[i].revision < d.revision
      ensures rs'[i].status == Reversed
    {
      assert SamePay(rs[i], d.partner, d.member, d.period) && rs[i].revision < d.revision;
    }
  }

  lemma ReversePayrollKeepsAgreement(s: Books, c: Call, partner: nat, a: Account)
    requires JournalsOk(s) && PayOk(s) && c.ReversePayrollCall? && ReversePayroll(s, c).1.RecordReply?
    requires AccountNet(s, partner, a) == Standing(s, partner, a)
    ensures AccountNet(ReversePayroll(s, c).0, partner, a) == Standing(ReversePayroll(s, c).0, partner, a)
  {
    var s' := ReversePayroll(s, c).0;
    var rec := s.records[c.record];
    assert RecordOk(s, c.record);
    var original := s.journals[JournalOf(s.journals, PayrollSource(rec.property, c.record)).value];
    hide PayOk;
    NothingReversedYet(s);
    hide JournalsOk, TotalOf, NetOf, PayrollPostings, Flipped;
    PayrollTotals(rec, a);
    FlippedNet(original.postings, a);
    NetAppend(s.journals, s'.journals[|s.journals|], partner, a);
    ExpensesAppend(s, s', partner, a);
    SumChangedAt(PayTerm(s, partner, a), PayTerm(s', partner, a), c.record, |s.records|);
  }

  lemma ReversePayrollKeepsInv(s: Books, c: Call)
    requires Inv(s) && c.ReversePayrollCall?
    ensures Inv(ReversePayroll(s, c).0)
  {
    var s' := ReversePayroll(s, c).0;
    if s' != s {
      var rec := s.records[c.record];
      assert RecordOk(s, c.record);
      var found := JournalOf(s.journals, PayrollSource(rec.property, c.record)).value;
      assert JournalOk(s, found);
      ReversePayrollKeepsPay(s, c);
      FlippedTotals(s.journals[found].postings, true);
      FlippedTotals(s.journals[found].postings, false);
      hide TotalOf, NetOf, PayOk, Flipped;
      JournalAppended(s, s', s'.journals[|s.journals|]);
      forall partner: nat, a ensures AccountNet(s', partner, a) == Standing(s', partner, a) {
        ReversePayrollKeepsAgreement(s, c, partner, a);
      }
    }
  }

  lemma ApplyKeepsInv(s: Books, c: Call)
    requires Inv(s)
    ensures Inv(Apply(s, c).0)
  {
    hide Inv, PostExpense, ReverseExpense, Look, Write, ReversePayroll;
    if c.ExpenseCall? { ExpenseKeepsInv(s, c); }
    else if c.ReverseExpenseCall? { ReverseExpenseKeepsInv(s, c); }
    else if c.LookCall? { LookKeepsInv(s, c); }
    else if c.WriteCall? { WriteKeepsInv(s, c); }
    else { ReversePayrollKeepsInv(s, c); }
  }

  lemma EmptyBooksKeepInv()
    ensures Inv(EMPTY)
  {
  }

  lemma {:induction false} RunKeepsInv(calls: seq<Call>)
    ensures Inv(Run(EMPTY, calls))
  {
    hide Apply, Inv;
    EmptyBooksKeepInv();
    if calls != [] {
      RunKeepsInv(calls[..|calls| - 1]);
      ApplyKeepsInv(Run(EMPTY, calls[..|calls| - 1]), calls[|calls| - 1]);
    }
  }

  // ---- theorems over every run ----

  function SideTerm(js: seq<Journal>, debit: bool): nat -> int {
    (i: nat) => if i < |js| then TotalOf(js[i].postings, debit) else 0
  }

  // All debits together equal all credits, and so do those of each single journal.
  lemma {:induction false} DebitsEqualCredits(calls: seq<Call>)
    ensures var js := Run(EMPTY, calls).journals;
            && Sum(SideTerm(js, true), |js|) == Sum(SideTerm(js, false), |js|)
            && forall i :: 0 <= i < |js| ==>
                 TotalOf(js[i].postings, true) == TotalOf(js[i].postings, false) == js[i].totalDebit == js[i].totalCredit
  {
    hide Run, TotalOf;
    RunKeepsInv(calls);
    var s := Run(EMPTY, calls);
    forall i: nat | i < |s.journals| ensures SideTerm(s.journals, true)(i) == SideTerm(s.journals, false)(i) {
      assert JournalOk(s, i);
    }
    forall i | 0 <= i < |s.journals|
      ensures TotalOf(s.journals[i].postings, true) == TotalOf(s.journals[i].postings, false) == s.journals[i].totalDebit == s.journals[i].totalCredit
    {
      assert JournalOk(s, i);
    }
    SumSame(SideTerm(s.journals, true), SideTerm(s.journals, false), |s.journals|);
  }

  // What the books say of any account of any partner is what its unreversed expenses and posted payroll alone say.
  lemma {:induction false} AccountsAreStanding(calls: seq<Call>, partner: nat, a: Account)
    ensures AccountNet(Run(EMPTY, calls), partner, a) == Standing(Run(EMPTY, calls), partner, a)
  {
    hide Run;
    RunKeepsInv(calls);
  }

  // However looks and writes interleave, a member has at most one posted record for a period, the one of the highest
  // revision, and no two records with the same revision.
  lemma {:induction false} OnePostedRecordPerPeriod(calls: seq<Call>, i: nat, j: nat)
    requires i < j < |Run(EMPTY, calls).records|
    requires var rs := Run(EMPTY, calls).records; SamePay(rs[i], rs[j].partner, rs[j].member, rs[j].period)
    ensures var rs := Run(EMPTY, calls).records; rs[i].status == Reversed && rs[i].revision < rs[j].revision
  {
    hide Run;
    RunKeepsInv(calls);
    LaterIsHigher(Run(EMPTY, calls).records, i, j);
  }

  lemma PostedRecordIsReversible(s: Books, c: Call)
    requires JournalsOk(s) && PayOk(s) && c.ReversePayrollCall? && |c.note| >= 5
    requires c.record < |s.records| && s.records[c.record].partner == c.partner && s.records[c.record].status == Posted
             && s.records[c.record].version == c.version
    ensures ReversePayroll(s, c).1 == RecordReply(c.record)
  {
    assert RecordOk(s, c.record);
    var source := PayrollReversal(s.records[c.record].property, c.record);
    forall k: nat | k < |s.journals| ensures s.journals[k].source != source {
      assert JournalOk(s, k);
    }
  }

  // A posted record can always be reversed by whoever read its version: its journal is there and not reversed yet.
  lemma {:induction false} PostedPayrollIsReversible(calls: seq<Call>, c: Call)
    requires c.ReversePayrollCall? && |c.note| >= 5
    requires var s := Run(EMPTY, calls);
             c.record < |s.records| && s.records[c.record].partner == c.partner && s.records[c.record].status == Posted
             && s.records[c.record].version == c.version
    ensures ReversePayroll(Run(EMPTY, calls), c).1 == RecordReply(c.record)
  {
    RunKeepsInv(calls);
    hide Run, Agrees;
    PostedRecordIsReversible(Run(EMPTY, calls), c);
  }

  // Reversing an expense again answers the same reversal and changes nothing; an expense is reversed at most once.
  lemma ExpensesAreReversedOnce(s: Books, c: Call)
    requires Inv(s) && c.ReverseExpenseCall? && ReverseExpense(s, c).1.JournalReply?
    ensures var (s', reply) := ReverseExpense(s, c);
            && ReverseExpense(s', c) == (s', reply)
            && forall k :: 0 <= k < |s'.journals| && k != reply.journal && s'.journals[k].source.ExpenseReversal? ==>
                 s'.journals[k].source.journal != c.journal
  {
    hide Agrees, PayOk, TotalOf, Flipped;
    var (s', reply) := ReverseExpense(s, c);
    var original := s.journals[c.journal];
    var source := ExpenseReversal(original.source.property, c.journal);
    forall k: nat | k < |s.journals| && s.journals[k].source.ExpenseReversal? && s.journals[k].source.journal == c.journal
      ensures s.journals[k].source == source
    {
      assert JournalOk(s, k);
    }
    if s' != s {
      FoundAfterAppend(s.journals, s'.journals[|s.journals|], source);
    }
  }

  // ---- an expense under a used key ----

  // The journal is this expense: its key, its category and its amount.
  ghost predicate Carries(j: Journal, c: Call)
    requires c.ExpenseCall? && c.category.Some?
  {
    && j.source == ExpenseSource(c.property, c.key) && j.postings == ExpensePostings(c.category.value, c.amount)
    && j.totalDebit == c.amount && j.totalCredit == c.amount
  }

  // An accepted expense is on record with its own category and amount exactly when its key was fresh or had been used
  // for the same category and amount.
  lemma ExpenseIsRecordedExactlyUnderItsOwnKey(s: Books, c: Call)
    requires Inv(s) && c.ExpenseCall? && PostExpense(s, c).1.JournalReply?
    ensures var (s', reply) := PostExpense(s, c);
            var found := JournalOf(s.journals, ExpenseSource(c.property, c.key));
            && reply.journal < |s'.journals|
            && (Carries(s'.journals[reply.journal], c)
                <==> found.None? || s.journals[found.value].postings == ExpensePostings(c.category.value, c.amount))
  {
    var found := JournalOf(s.journals, ExpenseSource(c.property, c.key));
    ExpenseTotals(c.category.value, c.amount, CashAndBank);
    hide Agrees, PayOk, TotalOf, ExpensePostings;
    if found.Some? {
      assert JournalOk(s, found.value);
    }
  }

  lemma StepOnlyAddsJournals(s: Books, c: Call)
    ensures s.journals <= Apply(s, c).0.journals
  {
  }

  lemma {:induction false} JournalsOnlyGrow(s: Books, calls: seq<Call>)
    requires Inv(s)
    ensures s.journals <= Run(s, calls).journals && Inv(Run(s, calls))
  {
    hide Apply, Inv;
    if calls != [] {
      var before := Run(s, calls[..|calls| - 1]);
      JournalsOnlyGrow(s, calls[..|calls| - 1]);
      StepOnlyAddsJournals(before, calls[|calls| - 1]);
      ApplyKeepsInv(before, calls[|calls| - 1]);
    }
  }

  predicate Admissible(c: Call)
    requires c.ExpenseCall?
  {
    16 <= |c.key| <= 100 && c.category.Some? && 1 <= c.amount <= MAX_AMOUNT && |c.description| >= 5 && c.propertyFound
  }

  lemma PostingsTellExpensesApart(a: Category, b: Category, x: int, y: int)
    ensures ExpensePostings(a, x) == ExpensePostings(b, y) <==> a == b && x == y
  {
    assert ExpensePostings(a, x)[0] == ExpensePostings(b, y)[0] <==> a == b && x == y;
  }

  lemma FoundExpenseIsAnswered(s: Books, c: Call, i: nat)
    requires JournalsOk(s) && c.ExpenseCall? && Admissible(c) && i < |s.journals|
    requires s.journals[i].source == ExpenseSource(c.property, c.key)
    ensures PostExpense(s, c) == (s, JournalReply(i))
  {
    var found := JournalOf(s.journals, ExpenseSource(c.property, c.key));
    assert found == Some(i);
  }

  // The first expense under a key stands for ever: any later one under it, whatever happened in between, is answered with
  // the first and is on record exactly when it names the same category and amount.
  lemma {:induction false} ReusedExpenseKeyKeepsTheFirst(s: Books, first: Call, calls: seq<Call>, second: Call)
    requires Inv(s) && first.ExpenseCall? && second.ExpenseCall? && Admissible(first) && Admissible(second)
    requires JournalOf(s.journals, ExpenseSource(first.property, first.key)).None?
    requires second.key == first.key && second.property == first.property
    ensures var later := Run(PostExpense(s, first).0, calls);
            && |s.journals| < |later.journals| && PostExpense(later, second) == (later, JournalReply(|s.journals|))
            && Carries(later.journals[|s.journals|], first)
            && (Carries(later.journals[|s.journals|], second) <==> second.category == first.category && second.amount == first.amount)
  {
    var s1 := PostExpense(s, first).0;
    ExpenseKeepsInv(s, first);
    JournalsOnlyGrow(s1, calls);
    var later := Run(s1, calls);
    assert later.journals[|s.journals|] == s1.journals[|s.journals|];
    PostingsTellExpensesApart(first.category.value, second.category.value, first.amount, second.amount);
    FoundExpenseIsAnswered(later, second, |s.journals|);
  }

  // Seven hundred rupees of marketing are answered with a journal, and only five hundred of utilities are in the books.
  const POWER_BILL := ExpenseCall(0, 0, true, "expense-key-0001", Some(Utilities), 500, "Power")
  const ADVERTISING := ExpenseCall(0, 0, true, "expense-key-0001", Some(Marketing), 700, "Posters")

  lemma SecondExpenseIsLost()
    ensures var s := Run(EMPTY, [POWER_BILL]);
            && PostExpense(s, ADVERTISING) == (s, JournalReply(0))
            && Run(EMPTY, [POWER_BILL, ADVERTISING]).journals
               == [Journal(0, ExpenseSource(0, "expense-key-0001"), ExpensePostings(Utilities, 500), 500, 500)]
  {
    var calls := [POWER_BILL, ADVERTISING];
    assert calls[..1] == [POWER_BILL] && [POWER_BILL][..0] == [];
    assert |POWER_BILL.key| == 16 && |POWER_BILL.description| == 5 && |ADVERTISING.description| == 7;
    var s := Run(EMPTY, [POWER_BILL]);
    assert Run(EMPTY, []) == EMPTY && [POWER_BILL][..|[POWER_BILL]| - 1] == [];
    assert s == PostExpense(EMPTY, POWER_BILL).0;
    assert s.journals == [Journal(0, ExpenseSource(0, "expense-key-0001"), ExpensePostings(Utilities, 500), 500, 500)];
    assert JournalOf(s.journals, ExpenseSource(0, "expense-key-0001")) == Some(0);
  }
}

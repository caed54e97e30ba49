// What each call of the ledger asks for and what it leaves, spelled on the journals and the payroll records.

module LedgerOutcomes {
  import opened Common
  import opened Ledger
  import opened LedgerTheorems

  ghost predicate NewSource(s: Books, source: Source) { forall i :: 0 <= i < |s.journals| ==> s.journals[i].source != source }

  // An expense under a fresh key is accepted exactly when it is in order: the cost on the debit side, paid from cash.
  lemma ExpensesExactly(s: Books, c: Call)
    requires c.ExpenseCall? && NewSource(s, ExpenseSource(c.property, c.key))
    ensures if 16 <= |c.key| <= 100 && c.category.Some? && 1 <= c.amount <= 100_000_000 && |c.description| >= 5 && c.propertyFound then
              Apply(s, c) == (s.(journals := s.journals + [Journal(c.partner, ExpenseSource(c.property, c.key),
                [Posting(ExpenseOf(c.category.value), c.amount, true), Posting(CashAndBank, c.amount, false)], c.amount, c.amount)]),
                JournalReply(|s.journals|))
            else Apply(s, c).0 == s && Apply(s, c).1.Refused?
  {
  }

  // A reversal mirrors a journal of the partner's own: every side turned round, the totals exchanged.
  ghost predicate Mirror(j: Journal, original: Journal) {
    && j.partner == original.partner && j.totalDebit == original.totalCredit && j.totalCredit == original.totalDebit
    && |j.postings| == |original.postings|
    && forall i :: 0 <= i < |j.postings| ==>
         && j.postings[i].account == original.postings[i].account && j.postings[i].amount == original.postings[i].amount
         && j.postings[i].debit != original.postings[i].debit
  }

  lemma ReversalsExactly(s: Books, c: Call)
    requires c.ReverseExpenseCall?
    requires forall i :: 0 <= i < |s.journals| && s.journals[i].source.ExpenseReversal? ==> s.journals[i].source.journal != c.journal
    ensures var (s', reply) := Apply(s, c);
            if |c.note| >= 5 && c.journal < |s.journals| && s.journals[c.journal].partner == c.partner && s.journals[c.journal].source.ExpenseSource? then
              && reply == JournalReply(|s.journals|) && |s'.journals| == |s.journals| + 1
              && var j := s'.journals[|s.journals|];
                 && s' == s.(journals := s.journals + [j]) && Mirror(j, s.journals[c.journal])
                 && j.source == ExpenseReversal(s.journals[c.journal].source.property, c.journal)
            else s' == s && reply.Refused?
  {
    hide Flipped;
  }

  // ---- payroll ----

  ghost predicate PayOf(r: Record, c: Call)
    requires c.LookCall?
  {
    r.partner == c.partner && r.member == c.member && r.period == c.period
  }

  // The record of the member and period with the highest revision.
  ghost predicate IsLatest(s: Books, c: Call, k: nat)
    requires c.LookCall?
  {
    && k < |s.records| && PayOf(s.records[k], c)
    && forall i :: 0 <= i < |s.records| && PayOf(s.records[i], c) ==> s.records[i].revision <= s.records[k].revision
  }

  ghost predicate MayLook(c: Call)
    requires c.LookCall?
  {
    1 <= c.gross <= 100_000_000 && 0 <= c.deduction < c.gross && |c.note| >= 5 && c.propertyFound && c.memberFound
  }

  // A payroll posting looks for the latest record: a posted one is answered, otherwise the next revision is drafted.
  lemma LooksExactly(s: Books, c: Call, k: nat)
    requires PayOk(s) && c.LookCall? && (IsLatest(s, c, k) || forall i :: 0 <= i < |s.records| ==> !PayOf(s.records[i], c))
    ensures var (s', reply) := Apply(s, c);
            var known := IsLatest(s, c, k);
            if !MayLook(c) then s' == s && reply.Refused?
            else if known && s.records[k].status == Posted then s' == s && reply == RecordReply(k)
            else
              reply == DraftReply(|s.drafts|)
              && s' == s.(drafts := s.drafts + [Draft(c.partner, c.property, c.member, c.period, c.gross, c.deduction,
                                                      if known then s.records[k].revision + 1 else 1)])
  {
    var latest := LatestRecord(s.records, c.partner, c.member, c.period);
    if IsLatest(s, c, k) {
      assert SamePay(s.records[k], c.partner, c.member, c.period);
      assert PayOf(s.records[latest.value], c);
      LatestIsOne(s, c, k, latest.value);
    } else {
      assert forall i :: 0 <= i < |s.records| ==> (SamePay(s.records[i], c.partner, c.member, c.period) <==> PayOf(s.records[i], c));
    }
    hide LatestRecord, PayOk;
  }

  lemma LatestIsOne(s: Books, c: Call, j: nat, k: nat)
    requires PayOk(s) && c.LookCall? && IsLatest(s, c, j) && IsLatest(s, c, k)
    ensures j == k
  {
  }

  // Gross pay on the debit side; on the other the deductions, if there are any, and what is left to pay.
  ghost predicate PayrollOf(j: Journal, r: Record, id: nat) {
    && j.partner == r.partner && j.source == PayrollSource(r.property, id) && j.totalDebit == r.gross && j.totalCredit == r.gross
    && j.postings == (if r.deduction == 0 then [Posting(ExpensePayroll, r.gross, true), Posting(PayrollPayable, r.gross, false)]
                      else [Posting(ExpensePayroll, r.gross, true), Posting(PayrollDeductions, r.deduction, false),
                            Posting(PayrollPayable, r.gross - r.deduction, false)])
  }

  lemma WritesExactly(s: Books, c: Call)
    requires c.WriteCall?
    ensures var (s', reply) := Apply(s, c);
            if c.draft < |s.drafts|
               && forall i :: 0 <= i < |s.records| ==>
                    !(s.records[i].partner == s.drafts[c.draft].partner && s.records[i].member == s.drafts[c.draft].member
                      && s.records[i].period == s.drafts[c.draft].period && s.records[i].revision == s.drafts[c.draft].revision)
            then
              var d := s.drafts[c.draft];
              && reply == RecordReply(|s.records|) && |s'.records| == |s.records| + 1 && |s'.journals| == |s.journals| + 1
              && var r, j := s'.records[|s.records|], s'.journals[|s.journals|];
                 && s' == s.(records := s.records + [r], journals := s.journals + [j])
                 && r == Record(d.partner, d.property, d.member, d.period, d.gross, d.deduction, d.gross - d.deduction, d.revision, Posted, 1)
                 && PayrollOf(j, r, |s.records|)
            else s' == s && reply.Refused?
  {
  }

  // A posted record is reversed by whoever holds its version: every side of its journal is turned round.
  lemma PayrollReversalsExactly(s: Books, c: Call)
    requires JournalsOk(s) && PayOk(s) && c.ReversePayrollCall?
    ensures var (s', reply) := Apply(s, c);
            if |c.note| >= 5 && c.record < |s.records| && s.records[c.record].partner == c.partner
               && s.records[c.record].status == Posted && s.records[c.record].version == c.version
            then
              && reply == RecordReply(c.record) && |s'.records| == |s.records| && |s'.journals| == |s.journals| + 1
              && var r, r', j := s.records[c.record], s'.records[c.record], s'.journals[|s.journals|];
                 && s' == s.(records := s.records[c.record := r'], journals := s.journals + [j])
                 && r' == r.(status := Reversed, version := r.version + 1) && j.source == PayrollReversal(r.property, c.record)
                 && j.partner == c.partner && j.totalDebit == r.gross && j.totalCredit == r.gross
                 && j.postings == (if r.deduction == 0 then [Posting(ExpensePayroll, r.gross, false), Posting(PayrollPayable, r.gross, true)]
                                   else [Posting(ExpensePayroll, r.gross, false), Posting(PayrollDeductions, r.deduction, true),
                                         Posting(PayrollPayable, r.gross - r.deduction, true)])
            else s' == s && reply.Refused?
  {
    hide Flipped;
    if c.record < |s.records| {
      assert RecordOk(s, c.record);
    }
    if |c.note| >= 5 && c.record < |s.records| && s.records[c.record].partner == c.partner
       && s.records[c.record].status == Posted && s.records[c.record].version == c.version {
      PostedRecordIsReversible(s, c);
    }
  }

  // ---- refusals ----

  // A refusal names what is so.
  ghost predicate WhyNoJournal(s: Books, c: Call, e: Error)
    requires c.ExpenseCall? || c.ReverseExpenseCall?
  {
    match e
    case InvalidKey => c.ExpenseCall? && (|c.key| < 16 || |c.key| > 100)
    case InvalidCategory => c.ExpenseCall? && c.category == None
    case InvalidAmount => c.ExpenseCall? && (c.amount < 1 || c.amount > 100_000_000)
    case InvalidDescription => c.ExpenseCall? && |c.description| < 5
    case PropertyNotFound => c.ExpenseCall? && !c.propertyFound
    case InvalidNote => c.ReverseExpenseCall? && |c.note| < 5
    case ExpenseNotFound =>
      c.ReverseExpenseCall?
      && !(c.journal < |s.journals| && s.journals[c.journal].partner == c.partner && s.journals[c.journal].source.ExpenseSource?)
    case _ => false
  }

  lemma JournalsRefusedTruly(s: Books, c: Call)
    requires (c.ExpenseCall? || c.ReverseExpenseCall?) && Apply(s, c).1.Refused?
    ensures WhyNoJournal(s, c, Apply(s, c).1.error)
  {
    hide JournalOf, Flipped;
  }

  ghost predicate WhyNoPay(s: Books, c: Call, e: Error)
    requires c.LookCall? || c.WriteCall? || c.ReversePayrollCall?
  {
    match e
    case InvalidGross => c.LookCall? && (c.gross < 1 || c.gross > 100_000_000)
    case InvalidDeduction => c.LookCall? && (c.deduction < 0 || c.deduction >= c.gross)
    case InvalidPayrollNote => c.LookCall? && |c.note| < 5
    case PropertyNotFound => c.LookCall? && !c.propertyFound
    case MemberNotFound => c.LookCall? && !c.memberFound
    case NoDraft => c.WriteCall? && c.draft >= |s.drafts|
    case UniqueViolation =>
      c.WriteCall? && c.draft < |s.drafts|
      && exists i :: 0 <= i < |s.records| && s.records[i].partner == s.drafts[c.draft].partner && s.records[i].member == s.drafts[c.draft].member
                     && s.records[i].period == s.drafts[c.draft].period && s.records[i].revision == s.drafts[c.draft].revision
    case InvalidNote => c.ReversePayrollCall? && |c.note| < 5
    case InvalidVersion => c.ReversePayrollCall? && c.version < 1
    case PayrollConflict =>
      c.ReversePayrollCall?
      && !(c.record < |s.records| && s.records[c.record].partner == c.partner && s.records[c.record].status == Posted
           && s.records[c.record].version == c.version)
    case _ => false
  }

  // A missing journal and a second reversal never stop the reversal of a posted record.
  lemma PayRefusedTruly(s: Books, c: Call)
    requires JournalsOk(s) && PayOk(s) && (c.LookCall? || c.WriteCall? || c.ReversePayrollCall?) && Apply(s, c).1.Refused?
    ensures WhyNoPay(s, c, Apply(s, c).1.error)
  {
    if c.ReversePayrollCall? && |c.note| >= 5 && c.record < |s.records| && s.records[c.record].partner == c.partner
       && s.records[c.record].status == Posted && s.records[c.record].version == c.version {
      PostedRecordIsReversible(s, c);
    }
    hide JournalOf, Flipped, LatestRecord, PayOk, JournalsOk;
  }
}

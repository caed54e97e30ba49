// The expense and payroll services on journal and payroll tables changed in place.

module LedgerStore {
  import opened Common
  import opened Lookup
  import opened Ledger

  class Store {
    var journals: seq<Journal>
    var records: seq<Record>
    // Payroll postings between their look and their write.
    var drafts: seq<Draft>

    ghost function Contents(): Books
      reads this
    {
      Books(journals, records, drafts)
    }

    constructor ()
      ensures Contents() == EMPTY
    {
      journals, records, drafts := [], [], [];
    }

    method FindJournal(source: Source) returns (found: Option<nat>)
      ensures found == JournalOf(journals, source)
    {
      found := FindLast(journals, FromSource(source));
    }

    // A reversal swaps the two sides of every posting.
    method Flip(postings: seq<Posting>) returns (flipped: seq<Posting>)
      ensures flipped == Flipped(postings)
    {
      flipped := [];
      for i := 0 to |postings|
        invariant flipped == Flipped(postings[..i])
      {
        assert postings[..i + 1][..i] == postings[..i];
        flipped := flipped + [postings[i].(debit := !postings[i].debit)];
      }
      assert postings[..|postings|] == postings;
    }

    method PostExpense(partner: nat, property: nat, propertyFound: bool, key: string, category: Option<Category>, amount: int,
                       description: string)
      returns (reply: Reply)
      modifies this
      ensures (Contents(), reply)
              == Ledger.PostExpense(old(Contents()), ExpenseCall(partner, property, propertyFound, key, category, amount, description))
    {
      if |key| < 16 || |key| > 100 {
        return Refused(InvalidKey);
      }
      if category.None? {
        return Refused(InvalidCategory);
      }
      if amount < 1 || amount > MAX_AMOUNT {
        return Refused(InvalidAmount);
      }
      if |description| < 5 {
        return Refused(InvalidDescription);
      }
      if !propertyFound {
        return Refused(PropertyNotFound);
      }
      var source := ExpenseSource(property, key);
      var found := FindJournal(source);
      if found.Some? {
        return JournalReply(found.value);
      }
      reply := JournalReply(|journals|);
      var postings := [Posting(ExpenseOf(category.value), amount, true), Posting(CashAndBank, amount, false)];
      journals := journals + [Journal(partner, source, postings, amount, amount)];
    }

    method ReverseExpense(partner: nat, journal: nat, note: string) returns (reply: Reply)
      modifies this
      ensures (Contents(), reply) == Ledger.ReverseExpense(old(Contents()), ReverseExpenseCall(partner, journal, note))
    {
      if |note| < 5 {
        return Refused(InvalidNote);
      }
      if journal >= |journals| || journals[journal].partner != partner || !journals[journal].source.ExpenseSource? {
        return Refused(ExpenseNotFound);
      }
      var original := journals[journal];
      var source := ExpenseReversal(original.source.property, journal);
      var found := FindJournal(source);
      if found.Some? {
        return JournalReply(found.value);
      }
      var postings := Flip(original.postings);
      reply := JournalReply(|journals|);
      journals := journals + [Journal(partner, source, postings, original.totalCredit, original.totalDebit)];
    }

    method FindLatest(partner: nat, member: nat, period: nat) returns (latest: Option<nat>)
      ensures latest == LatestRecord(records, partner, member, period)
    {
      latest := None;
      for i := 0 to |records|
        invariant latest == LatestRecord(records[..i], partner, member, period)
      {
        assert records[..i + 1][..i] == records[..i];
        if SamePay(records[i], partner, member, period) && (latest.None? || records[i].revision > records[latest.value].revision) {
          latest := Some(i);
        }
      }
      assert records[..|records|] == records;
    }

    method Look(partner: nat, property: nat, propertyFound: bool, member: nat, memberFound: bool, period: nat,
                gross: int, deduction: int, note: string)
      returns (reply: Reply)
      modifies this`drafts
      ensures (Contents(), reply)
              == Ledger.Look(old(Contents()), LookCall(partner, property, propertyFound, member, memberFound, period, gross, deduction, note))
    {
      if gross < 1 || gross > MAX_AMOUNT {
        return Refused(InvalidGross);
      }
      if deduction < 0 || deduction >= gross {
        return Refused(InvalidDeduction);
      }
      if |note| < 5 {
        return Refused(InvalidPayrollNote);
      }
      if !propertyFound {
        return Refused(PropertyNotFound);
      }
      if !memberFound {
        return Refused(MemberNotFound);
      }
      var latest := FindLatest(partner, member, period);
      if latest.Some? && records[latest.value].status == Posted {
        return RecordReply(latest.value);
      }
      var revision := (if latest.Some? then records[latest.value].revision else 0) + 1;
      reply := DraftReply(|drafts|);
      drafts := drafts + [Draft(partner, property, member, period, gross, deduction, revision)];
    }

    method Write(draft: nat) returns (reply: Reply)
      modifies this
      ensures (Contents(), reply) == Ledger.Write(old(Contents()), WriteCall(draft))
    {
      if draft >= |drafts| {
        return Refused(NoDraft);
      }
      var d := drafts[draft];
      var taken := false;
      for i := 0 to |records|
        invariant taken <==> exists k :: 0 <= k < i && SamePay(records[k], d.partner, d.member, d.period) && records[k].revision == d.revision
      {
        taken := taken || (SamePay(records[i], d.partner, d.member, d.period) && records[i].revision == d.revision);
      }
      if taken {
        return Refused(UniqueViolation);
      }
      var net, id := d.gross - d.deduction, |records|;
      records := records + [Record(d.partner, d.property, d.member, d.period, d.gross, d.deduction, net, d.revision, Posted, 1)];
      var postings := [Posting(ExpensePayroll, d.gross, true)];
      if d.deduction != 0 {
        postings := postings + [Posting(PayrollDeductions, d.deduction, false)];
      }
      postings := postings + [Posting(PayrollPayable, net, false)];
      assert postings == PayrollPostings(d.gross, d.deduction);
      journals := journals + [Journal(d.partner, PayrollSource(d.property, id), postings, d.gross, d.gross)];
      return RecordReply(id);
    }

    method ReversePayroll(partner: nat, record: nat, note: string, version: int) returns (reply: Reply)
      modifies this
      ensures (Contents(), reply) == Ledger.ReversePayroll(old(Contents()), ReversePayrollCall(partner, record, note, version))
    {
      if |note| < 5 {
        return Refused(InvalidNote);
      }
      if version < 1 {
        return Refused(InvalidVersion);
      }
      if record >= |records| || records[record].partner != partner || records[record].status != Posted
         || records[record].version != version {
        return Refused(PayrollConflict);
      }
      var r := records[record];
      var found := FindJournal(PayrollSource(r.property, record));
      if found.None? {
        return Refused(JournalMissing);
      }
      var journal := journals[found.value];
      var source := PayrollReversal(r.property, record);
      var clash := FindJournal(source);
      if clash.Some? {
        return Refused(UniqueViolation);
      }
      var postings := Flip(journal.postings);
      records := records[record := r.(status := Reversed, version := r.version + 1)];
      journals := journals + [Journal(partner, source, postings, journal.totalDebit, journal.totalCredit)];
      return RecordReply(record);
    }
  }
}

// A partner's journals: hotel expenses, payroll and their reversals, in whole rupees.

module Ledger {
  import opened Common
  import opened Lookup
  import opened Sums

  datatype Category = FoodSupplies | Housekeeping | Upkeep | Utilities | Marketing | Transport | Other
  datatype Account = ExpenseOf(category: Category) | CashAndBank | ExpensePayroll | PayrollDeductions | PayrollPayable
  datatype Posting = Posting(account: Account, amount: int, debit: bool)

  // Source type and source id of a journal; the pair is unique.
  datatype Source =
    | ExpenseSource(property: nat, key: string)
    | ExpenseReversal(property: nat, journal: nat)
    | PayrollSource(property: nat, record: nat)
    | PayrollReversal(property: nat, record: nat)

  datatype Journal = Journal(partner: nat, source: Source, postings: seq<Posting>, totalDebit: int, totalCredit: int)

  datatype RecordStatus = Posted | Reversed
  datatype Record = Record(partner: nat, property: nat, member: nat, period: nat, gross: int, deduction: int, net: int,
                           revision: nat, status: RecordStatus, version: nat)

  // A payroll posting between its look at the latest revision and its write.
  datatype Draft = Draft(partner: nat, property: nat, member: nat, period: nat, gross: int, deduction: int, revision: nat)

  datatype Books = Books(journals: seq<Journal>, records: seq<Record>, drafts: seq<Draft>)

  // Whether the property and the member are there and active comes from other tables.
  datatype Call =
    | ExpenseCall(partner: nat, property: nat, propertyFound: bool, key: string, category: Option<Category>, amount: int, description: string)
    | ReverseExpenseCall(partner: nat, journal: nat, note: string)
    | LookCall(partner: nat, property: nat, propertyFound: bool, member: nat, memberFound: bool, period: nat,
               gross: int, deduction: int, note: string)
    | WriteCall(draft: nat)
    | ReversePayrollCall(partner: nat, record: nat, note: string, version: int)

  datatype Error =
    | InvalidKey | InvalidCategory | InvalidAmount | InvalidDescription | PropertyNotFound | InvalidNote | ExpenseNotFound
    | InvalidGross | InvalidDeduction | InvalidPayrollNote | MemberNotFound | InvalidVersion | PayrollConflict
    | JournalMissing | UniqueViolation | NoDraft

  datatype Reply = JournalReply(journal: nat) | RecordReply(record: nat) | DraftReply(draft: nat) | Refused(error: Error)

  const MAX_AMOUNT := 100_000_000

  // ---- postings ----

  function Signed(p: Posting): int { if p.debit then p.amount else -p.amount }

  // Debits less credits of one account.
  function NetOf(ps: seq<Posting>, a: Account): int {
    if ps == [] then 0
    else NetOf(ps[..|ps| - 1], a) + if ps[|ps| - 1].account == a then Signed(ps[|ps| - 1]) else 0
  }

  function TotalOf(ps: seq<Posting>, debit: bool): int {
    if ps == [] then 0
    else TotalOf(ps[..|ps| - 1], debit) + if ps[|ps| - 1].debit == debit then ps[|ps| - 1].amount else 0
  }

  function Flipped(ps: seq<Posting>): (r: seq<Posting>)
    ensures |r| == |ps| && forall i :: 0 <= i < |ps| ==> r[i] == ps[i].(debit := !ps[i].debit)
  {
    if ps == [] then [] else Flipped(ps[..|ps| - 1]) + [ps[|ps| - 1].(debit := !ps[|ps| - 1].debit)]
  }

  function ExpensePostings(category: Category, amount: int): seq<Posting> {
    [Posting(ExpenseOf(category), amount, true), Posting(CashAndBank, amount, false)]
  }

  function PayrollPostings(gross: int, deduction: int): seq<Posting> {
    [Posting(ExpensePayroll, gross, true)]
    + (if deduction != 0 then [Posting(PayrollDeductions, deduction, false)] else [])
    + [Posting(PayrollPayable, gross - deduction, false)]
  }

  function FromSource(source: Source): Journal -> bool { (x: Journal) => x.source == source }

  function JournalOf(js: seq<Journal>, source: Source): (r: Option<nat>)
    ensures r.Some? ==> r.value < |js| && js[r.value].source == source
    ensures r.None? <==> forall i :: 0 <= i < |js| ==> js[i].source != source
  {
    LastWhere(js, FromSource(source))
  }

  // ---- expenses ----

  function PostExpense(s: Books, c: Call): (Books, Reply)
    requires c.ExpenseCall?
  {
    if !(16 <= |c.key| <= 100) then (s, Refused(InvalidKey))
    else if c.category.None? then (s, Refused(InvalidCategory))
    else if c.amount < 1 || c.amount > MAX_AMOUNT then (s, Refused(InvalidAmount))
    else if |c.description| < 5 then (s, Refused(InvalidDescription))
    else if !c.propertyFound then (s, Refused(PropertyNotFound))
    else
      var source := ExpenseSource(c.property, c.key);
      var found := JournalOf(s.journals, source);
      if found.Some? then (s, JournalReply(found.value))
      else
        (s.(journals := s.journals + [Journal(c.partner, source, ExpensePostings(c.category.value, c.amount), c.amount, c.amount)]),
         JournalReply(|s.journals|))
  }

  function ReverseExpense(s: Books, c: Call): (Books, Reply)
    requires c.ReverseExpenseCall?
  {
    if |c.note| < 5 then (s, Refused(InvalidNote))
    else if c.journal >= |s.journals| || s.journals[c.journal].partner != c.partner || !s.journals[c.journal].source.ExpenseSource?
    then (s, Refused(ExpenseNotFound))
    else
      var original := s.journals[c.journal];
      var source := ExpenseReversal(original.source.property, c.journal);
      var found := JournalOf(s.journals, source);
      if found.Some? then (s, JournalReply(found.value))
      else
        (s.(journals := s.journals + [Journal(c.partner, source, Flipped(original.postings), original.totalCredit, original.totalDebit)]),
         JournalReply(|s.journals|))
  }

  // ---- payroll ----

  predicate SamePay(r: Record, partner: nat, member: nat, period: nat) {
    r.partner == partner && r.member == member && r.period == period
  }

  // The record of the highest revision.
  function LatestRecord(rs: seq<Record>, partner: nat, member: nat, period: nat): (r: Option<nat>)
    ensures r.Some? ==> r.value < |rs| && SamePay(rs[r.value], partner, member, period)
    ensures r.Some? ==> forall i :: 0 <= i < |rs| && SamePay(rs[i], partner, member, period) ==> rs[i].revision <= rs[r.value].revision
    ensures r.None? <==> forall i :: 0 <= i < |rs| ==> !SamePay(rs[i], partner, member, period)
  {
    if rs == [] then None
    else
      var before := LatestRecord(rs[..|rs| - 1], partner, member, period);
      var last := rs[|rs| - 1];
      if SamePay(last, partner, member, period) && (before.None? || last.revision > rs[before.value].revision)
      then Some(|rs| - 1) else before
  }

  function Look(s: Books, c: Call): (Books, Reply)
    requires c.LookCall?
  {
    if c.gross < 1 || c.gross > MAX_AMOUNT then (s, Refused(InvalidGross))
    else if c.deduction < 0 || c.deduction >= c.gross then (s, Refused(InvalidDeduction))
    else if |c.note| < 5 then (s, Refused(InvalidPayrollNote))
    else if !c.propertyFound then (s, Refused(PropertyNotFound))
    else if !c.memberFound then (s, Refused(MemberNotFound))
    else
      var latest := LatestRecord(s.records, c.partner, c.member, c.period);
      if latest.Some? && s.records[latest.value].status == Posted then (s, RecordReply(latest.value))
      else
        var revision := if latest.Some? then s.records[latest.value].revision + 1 else 1;
        (s.(drafts := s.drafts + [Draft(c.partner, c.property, c.member, c.period, c.gross, c.deduction, revision)]),
         DraftReply(|s.drafts|))
  }

  predicate RevisionTaken(rs: seq<Record>, partner: nat, member: nat, period: nat, revision: nat) {
    exists i :: 0 <= i < |rs| && SamePay(rs[i], partner, member, period) && rs[i].revision == revision
  }

  function PayrollJournal(r: Record, id: nat): Journal {
    Journal(r.partner, PayrollSource(r.property, id), PayrollPostings(r.gross, r.deduction), r.gross, r.gross)
  }

  // One transaction: the record and its journal. The draft may be written again by a caller that retries.
  function Write(s: Books, c: Call): (Books, Reply)
    requires c.WriteCall?
  {
    if c.draft >= |s.drafts| then (s, Refused(NoDraft))
    else
      var d := s.drafts[c.draft];
      if RevisionTaken(s.records, d.partner, d.member, d.period, d.revision) then (s, Refused(UniqueViolation))
      else
        var r := Record(d.partner, d.property, d.member, d.period, d.gross, d.deduction, d.gross - d.deduction, d.revision, Posted, 1);
        (s.(records := s.records + [r], journals := s.journals + [PayrollJournal(r, |s.records|)]), RecordReply(|s.records|))
  }

  function ReversePayroll(s: Books, c: Call): (Books, Reply)
    requires c.ReversePayrollCall?
  {
    if |c.note| < 5 then (s, Refused(InvalidNote))
    else if c.version < 1 then (s, Refused(InvalidVersion))
    else if c.record >= |s.records| || s.records[c.record].partner != c.partner || s.records[c.record].status != Posted
            || s.records[c.record].version != c.version
    then (s, Refused(PayrollConflict))
    else
      var r := s.records[c.record];
      var found := JournalOf(s.journals, PayrollSource(r.property, c.record));
      if found.None? then (s, Refused(JournalMissing))
      else
        var journal := s.journals[found.value];
        var source := PayrollReversal(r.property, c.record);
        if JournalOf(s.journals, source).Some? then (s, Refused(UniqueViolation))
        else
          (s.(records := s.records[c.record := r.(status := Reversed, version := r.version + 1)],
              journals := s.journals + [Journal(c.partner, source, Flipped(journal.postings), journal.totalDebit, journal.totalCredit)]),
           RecordReply(c.record))
  }

  function Apply(s: Books, c: Call): (Books, Reply) {
    if c.ExpenseCall? then PostExpense(s, c)
    else if c.ReverseExpenseCall? then ReverseExpense(s, c)
    else if c.LookCall? then Look(s, c)
    else if c.WriteCall? then Write(s, c)
    else ReversePayroll(s, c)
  }

  function Run(s: Books, calls: seq<Call>): Books {
    if calls == [] then s else Apply(Run(s, calls[..|calls| - 1]), calls[|calls| - 1]).0
  }

  const EMPTY := Books([], [], [])

  // ---- what the books say ----

  function NetTerm(js: seq<Journal>, partner: nat, a: Account): nat -> int {
    (i: nat) => if i < |js| && js[i].partner == partner then NetOf(js[i].postings, a) else 0
  }

  // Debits less credits of a partner's account over all its journals.
  function AccountNet(s: Books, partner: nat, a: Account): int { Sum(NetTerm(s.journals, partner, a), |s.journals|) }

  predicate ExpenseReversed(js: seq<Journal>, i: nat) {
    exists k :: 0 <= k < |js| && js[k].source.ExpenseReversal? && js[k].source.journal == i
  }

  function ExpenseTerm(s: Books, partner: nat, a: Account): nat -> int {
    (i: nat) => if i < |s.journals| && s.journals[i].partner == partner && s.journals[i].source.ExpenseSource?
                   && !ExpenseReversed(s.journals, i)
                then NetOf(s.journals[i].postings, a) else 0
  }

  // What a payroll record says of an account, from its own amounts.
  function PayNet(r: Record, a: Account): int {
    match a
    case ExpensePayroll => r.gross
    case PayrollDeductions => -r.deduction
    case PayrollPayable => -r.net
    case _ => 0
  }

  function PayTerm(s: Books, partner: nat, a: Account): nat -> int {
    (i: nat) => if i < |s.records| && s.records[i].partner == partner && s.records[i].status == Posted then PayNet(s.records[i], a) else 0
  }

  // What the expenses that were not reversed and the posted payroll records alone amount to.
  function Standing(s: Books, partner: nat, a: Account): int {
    Sum(ExpenseTerm(s, partner, a), |s.journals|) + Sum(PayTerm(s, partner, a), |s.records|)
  }
}

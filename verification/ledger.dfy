/** The books: manual entries, and the profit and loss drawn from sales, entries and withdrawal fees. */
module Ledger {
  import opened Options
  import opened OrderedMaps
  import opened Tallies
  import Earnings
  import Payouts

  const AUTO_MOBILE_MONEY := "Mobile money sales"
  const AUTO_VOUCHERS := "Printed voucher sales"
  const AUTO_MANUAL_PAYMENTS := "Manual payments"
  const AUTO_WITHDRAWAL_FEES := "Withdrawal fees"

  const AUTO := {AUTO_MOBILE_MONEY, AUTO_VOUCHERS, AUTO_MANUAL_PAYMENTS, AUTO_WITHDRAWAL_FEES}

  const MAX_AMOUNT := 1_000_000_000
  const DAY_MS := Earnings.DAY_MS

  datatype EntryType = INCOME | EXPENSE

  datatype Input = Input(kind: Option<EntryType>, category: string, amountUgx: int, occurredOn: string)

  /** `occurredOn` is the UTC midnight of the day it happened. */
  datatype Entry = Entry(kind: EntryType, category: string, amountUgx: int, occurredOn: int, deleted: bool)

  type Withdrawal = Payouts.Withdrawal

  /** A completed withdrawal as its query returns it. */
  datatype Sent = Sent(amountUgx: int, feeUgx: int, at: int)

  datatype Refusal = ChooseType | ChooseCategory | AutomaticCategory | AmountNotPositive | AmountTooLarge
                   | PickDate | InvalidDate | FutureDate | NotFound | BadRange | QueryFails

  /**
   * What the business calendar and the platform decide: which characters are blank, the
   * UTC midnight a date's text stands for, the UTC day of a time, and its local day.
   */
  datatype Calendar = Calendar(
    isBlank: char -> bool,
    midnight: string -> Option<int>,
    utcDay: int -> string,
    dayKey: int -> string)

  // ---- Text ----

  function TrimStart(s: string, isBlank: char -> bool): string {
    if s != "" && isBlank(s[0]) then TrimStart(s[1..], isBlank) else s
  }

  function TrimEnd(s: string, isBlank: char -> bool): string {
    if s != "" && isBlank(s[|s| - 1]) then TrimEnd(s[..|s| - 1], isBlank) else s
  }

  function Trim(s: string, isBlank: char -> bool): string { TrimEnd(TrimStart(s, isBlank), isBlank) }

  /** The order of strings. */
  predicate AtMost(a: string, b: string) {
    a == "" || (b != "" && (a[0] < b[0] || (a[0] == b[0] && AtMost(a[1..], b[1..]))))
  }

  predicate LooksLikeDate(s: string) {
    |s| == 10 && s[4] == '-' && s[7] == '-' && forall i :: 0 <= i < 10 && i != 4 && i != 7 ==> '0' <= s[i] <= '9'
  }

  function Month(day: string): string { if |day| <= 7 then day else day[..7] }

  // ---- Entries ----

  function Validate(input: Input, calendar: Calendar, now: int): Result<Entry, Refusal> {
    if input.kind.None? then Err(ChooseType)
    else
      var category := Trim(input.category, calendar.isBlank);
      if category == "" then Err(ChooseCategory)
      else if category in AUTO then Err(AutomaticCategory)
      else if input.amountUgx <= 0 then Err(AmountNotPositive)
      else if input.amountUgx > MAX_AMOUNT then Err(AmountTooLarge)
      else if !LooksLikeDate(input.occurredOn) then Err(PickDate)
      else if calendar.midnight(input.occurredOn).None? then Err(InvalidDate)
      else if !AtMost(input.occurredOn, calendar.dayKey(now)) then Err(FutureDate)
      else Ok(Entry(input.kind.value, category, input.amountUgx, calendar.midnight(input.occurredOn).value, false))
  }

  /** No entry uses a category the system fills in, and every amount counts. */
  predicate IsEntry(e: Entry) { e.category !in AUTO && 0 < e.amountUgx <= MAX_AMOUNT }

  datatype Range = Range(from: string, to: string, fromDate: int, toDate: int)

  /** A text that looks like a date but is none passes this check; the queries then fail on it. */
  function RangeOf(from: string, to: string, calendar: Calendar, now: int): Result<Range, Refusal> {
    var today := calendar.dayKey(now);
    var f := if LooksLikeDate(from) then from else Month(today) + "-01";
    var t := if LooksLikeDate(to) then to else today;
    if !AtMost(f, t) then Err(BadRange)
    else if calendar.midnight(f).None? || calendar.midnight(t).None? then Err(QueryFails)
    else Ok(Range(f, t, calendar.midnight(f).value, calendar.midnight(t).value))
  }

  predicate InRange(day: string, range: Range) { AtMost(range.from, day) && AtMost(day, range.to) }

  // ---- Postings ----

  /** One amount on one side of the books. */
  datatype Posting = Posting(side: EntryType, category: string, amountUgx: int, automatic: bool, day: string)

  function SaleCategory(source: Earnings.Source): string {
    match source
    case VOUCHER => AUTO_VOUCHERS
    case MANUAL => AUTO_MANUAL_PAYMENTS
    case SSENTEZO => AUTO_MOBILE_MONEY
  }

  function SalePostings(sales: seq<Earnings.Sale>, range: Range, dayKey: int -> string): seq<Posting> {
    if sales == [] then []
    else
      var s := sales[|sales| - 1];
      var before := SalePostings(sales[..|sales| - 1], range, dayKey);
      if InRange(dayKey(s.at), range)
      then before + [Posting(INCOME, SaleCategory(s.source), s.amountUgx, true, dayKey(s.at))] else before
  }

  function EntryPostings(entries: seq<Entry>, range: Range, utcDay: int -> string): seq<Posting> {
    if entries == [] then []
    else
      var e := entries[|entries| - 1];
      var before := EntryPostings(entries[..|entries| - 1], range, utcDay);
      if !e.deleted && range.fromDate <= e.occurredOn <= range.toDate
      then before + [Posting(e.kind, e.category, e.amountUgx, false, utcDay(e.occurredOn))] else before
  }

  /** The successful withdrawals completed since. */
  function SentSince(withdrawals: seq<Withdrawal>, since: int): seq<Sent> {
    if withdrawals == [] then []
    else
      var w := withdrawals[|withdrawals| - 1];
      var before := SentSince(withdrawals[..|withdrawals| - 1], since);
      if w.status == Payouts.SUCCESS && w.completedAt.Some? && w.completedAt.value >= since
      then before + [Sent(w.amountUgx, w.feeUgx, w.completedAt.value)] else before
  }

  function FeePostings(sent: seq<Sent>, range: Range, dayKey: int -> string): seq<Posting> {
    if sent == [] then []
    else
      var w := sent[|sent| - 1];
      var before := FeePostings(sent[..|sent| - 1], range, dayKey);
      if InRange(dayKey(w.at), range)
      then before + [Posting(EXPENSE, AUTO_WITHDRAWAL_FEES, w.feeUgx, true, dayKey(w.at))] else before
  }

  function Postings(sales: seq<Earnings.Sale>, entries: seq<Entry>, sent: seq<Sent>,
                    range: Range, calendar: Calendar): seq<Posting> {
    SalePostings(sales, range, calendar.dayKey) + EntryPostings(entries, range, calendar.utcDay)
    + FeePostings(sent, range, calendar.dayKey)
  }

  /** What is posted when both queries reach back to `since`. */
  function PostingsSince(payments: seq<Earnings.Payment>, vouchers: seq<Earnings.Voucher>, entries: seq<Entry>,
                         withdrawals: seq<Withdrawal>, range: Range, calendar: Calendar, since: int): seq<Posting> {
    Postings(Earnings.Sales(payments, vouchers, since), entries, SentSince(withdrawals, since), range, calendar)
  }

  /** One side of the postings, by category and automatic flag. */
  function Side(ps: seq<Posting>, side: EntryType): seq<Item<string, bool>> {
    if ps == [] then []
    else
      var p := ps[|ps| - 1];
      var before := Side(ps[..|ps| - 1], side);
      if p.side == side then before + [Item(p.category, p.automatic, p.amountUgx)] else before
  }

  datatype MonthRow = MonthRow(incomeUgx: int, expenseUgx: int)

  function MonthIncome(m: MonthRow): int { m.incomeUgx }
  function MonthExpense(m: MonthRow): int { m.expenseUgx }
  function MonthProfit(m: MonthRow): int { m.incomeUgx - m.expenseUgx }

  function AddToMonth(m: OMap<string, MonthRow>, p: Posting): OMap<string, MonthRow> {
    var row := Find(m, Month(p.day));
    var r := if row.Some? then row.value else MonthRow(0, 0);
    Put(m, Month(p.day),
        if p.side == INCOME then r.(incomeUgx := r.incomeUgx + p.amountUgx)
        else r.(expenseUgx := r.expenseUgx + p.amountUgx))
  }

  function Monthly(ps: seq<Posting>): OMap<string, MonthRow> {
    if ps == [] then [] else AddToMonth(Monthly(ps[..|ps| - 1]), ps[|ps| - 1])
  }

  datatype Books = Books(income: Tally<string, bool>, expense: Tally<string, bool>, monthly: OMap<string, MonthRow>)

  function BooksOf(ps: seq<Posting>): Books {
    Books(TallyOf(Side(ps, INCOME)), TallyOf(Side(ps, EXPENSE)), Monthly(ps))
  }

  /** Adds one amount to its category's row and its month's column. */
  function Post(b: Books, p: Posting): Books {
    var e := Item(p.category, p.automatic, p.amountUgx);
    Books(if p.side == INCOME then Add(b.income, e) else b.income,
          if p.side == EXPENSE then Add(b.expense, e) else b.expense,
          AddToMonth(b.monthly, p))
  }

  lemma BooksOfAppend(ps: seq<Posting>, p: Posting)
    ensures BooksOf(ps + [p]) == Post(BooksOf(ps), p)
  {
    hide Add, AddToMonth;
    assert (ps + [p])[..|ps|] == ps;
    TallyOfAppend(Side(ps, p.side), Item(p.category, p.automatic, p.amountUgx));
  }

  function Withdrawn(sent: seq<Sent>, range: Range, dayKey: int -> string): int {
    if sent == [] then 0
    else
      var w := sent[|sent| - 1];
      Withdrawn(sent[..|sent| - 1], range, dayKey) + if InRange(dayKey(w.at), range) then w.amountUgx else 0
  }

  datatype Summary = Summary(books: Books, incomeUgx: int, expenseUgx: int, withdrawnUgx: int)

  class LedgerService {
    var entries: seq<Entry>

    predicate Valid()
      reads this
    {
      forall e :: e in entries ==> IsEntry(e)
    }

    constructor ()
      ensures Valid() && entries == []
    {
      entries := [];
    }

    method Create(input: Input, calendar: Calendar, now: int) returns (r: Result<Entry, Refusal>)
      requires Valid()
      modifies this
      ensures Valid() && r == Validate(input, calendar, now)
      ensures entries == old(entries) + (if r.Ok? then [r.value] else [])
    {
      r := Validate(input, calendar, now);
      if r.Ok? { entries := entries + [r.value]; }
    }

    method Update(id: nat, input: Input, calendar: Calendar, now: int) returns (r: Result<Entry, Refusal>)
      requires Valid()
      modifies this
      ensures Valid()
      ensures r == if id < |old(entries)| && !old(entries)[id].deleted then Validate(input, calendar, now)
                   else Err(NotFound)
      ensures entries == if r.Ok? then old(entries)[id := r.value] else old(entries)
    {
      if id >= |entries| || entries[id].deleted { return Err(NotFound); }
      r := Validate(input, calendar, now);
      if r.Ok? { entries := entries[id := r.value]; }
    }

    /** The entry stays but stops counting. */
    method Remove(id: nat) returns (r: Result<(), Refusal>)
      requires Valid()
      modifies this
      ensures Valid() && (r.Ok? <==> id < |old(entries)| && !old(entries)[id].deleted)
      ensures entries == if r.Ok? then old(entries)[id := old(entries)[id].(deleted := true)] else old(entries)
    {
      if id >= |entries| || entries[id].deleted { return Err(NotFound); }
      assert IsEntry(entries[id]);
      entries := entries[id := entries[id].(deleted := true)];
      r := Ok(());
    }

    /** The sales and withdrawal queries reach back a day before the range. */
    method Summarise(from: string, to: string, payments: seq<Earnings.Payment>, vouchers: seq<Earnings.Voucher>,
                     withdrawals: seq<Withdrawal>, calendar: Calendar, now: int) returns (r: Result<Summary, Refusal>)
      requires Valid()
      ensures var found := RangeOf(from, to, calendar, now);
              if found.Err? then r == Err(found.error)
              else
                var range, since := found.value, found.value.fromDate - DAY_MS;
                var books := BooksOf(PostingsSince(payments, vouchers, entries, withdrawals, range, calendar, since));
                r == Ok(Summary(books, Column(books.income, RowAmount), Column(books.expense, RowAmount),
                                Withdrawn(SentSince(withdrawals, since), range, calendar.dayKey)))
    {
      hide *;
      var found := RangeOf(from, to, calendar, now);
      if found.Err? { return Err(found.error); }
      var range := found.value;
      var sales := Earnings.Sales(payments, vouchers, range.fromDate - DAY_MS);
      var sent := SentSince(withdrawals, range.fromDate - DAY_MS);
      ghost var sold := SalePostings(sales, range, calendar.dayKey);
      ghost var manual := EntryPostings(entries, range, calendar.utcDay);
      var books := PostSales(sales, range, calendar.dayKey);
      books := PostEntries(books, sold, range, calendar.utcDay);
      var withdrawnUgx;
      books, withdrawnUgx := PostFees(books, sold + manual, sent, range, calendar.dayKey);
      PostingsInOrder(payments, vouchers, entries, withdrawals, range, calendar, range.fromDate - DAY_MS);
      r := Ok(Summary(books, Column(books.income, RowAmount), Column(books.expense, RowAmount), withdrawnUgx));
    }

    method PostEntries(start: Books, ghost before: seq<Posting>, range: Range, utcDay: int -> string)
      returns (books: Books)
      requires start == BooksOf(before)
      ensures books == BooksOf(before + EntryPostings(entries, range, utcDay))
    {
      hide BooksOf, Post;
      books := start;
      assert before + EntryPostings(entries[..0], range, utcDay) == before;
      for i := 0 to |entries|
        invariant books == BooksOf(before + EntryPostings(entries[..i], range, utcDay))
      {
        var e := entries[i];
        assert entries[..i + 1][..i] == entries[..i];
        if !e.deleted && range.fromDate <= e.occurredOn <= range.toDate {
          var p := Posting(e.kind, e.category, e.amountUgx, false, utcDay(e.occurredOn));
          assert before + EntryPostings(entries[..i + 1], range, utcDay)
              == before + EntryPostings(entries[..i], range, utcDay) + [p];
          BooksOfAppend(before + EntryPostings(entries[..i], range, utcDay), p);
          books := Post(books, p);
        }
      }
      assert entries[..|entries|] == entries;
    }
  }

  lemma PostingsInOrder(payments: seq<Earnings.Payment>, vouchers: seq<Earnings.Voucher>, entries: seq<Entry>,
                        withdrawals: seq<Withdrawal>, range: Range, calendar: Calendar, since: int)
    ensures SalePostings(Earnings.Sales(payments, vouchers, since), range, calendar.dayKey)
            + EntryPostings(entries, range, calendar.utcDay)
            + FeePostings(SentSince(withdrawals, since), range, calendar.dayKey)
            == PostingsSince(payments, vouchers, entries, withdrawals, range, calendar, since)
  {
  }

  method PostSales(sales: seq<Earnings.Sale>, range: Range, dayKey: int -> string) returns (books: Books)
    ensures books == BooksOf(SalePostings(sales, range, dayKey))
  {
    books := Books([], [], []);
    assert books == BooksOf([]);
    hide BooksOf, Post, InRange;
    for i := 0 to |sales|
      invariant books == BooksOf(SalePostings(sales[..i], range, dayKey))
    {
      var day := dayKey(sales[i].at);
      assert sales[..i + 1][..i] == sales[..i];
      if InRange(day, range) {
        var p := Posting(INCOME, SaleCategory(sales[i].source), sales[i].amountUgx, true, day);
        BooksOfAppend(SalePostings(sales[..i], range, dayKey), p);
        books := Post(books, p);
      }
    }
    assert sales[..|sales|] == sales;
  }

  method PostFees(start: Books, ghost before: seq<Posting>, sent: seq<Sent>, range: Range, dayKey: int -> string)
    returns (books: Books, withdrawnUgx: int)
    requires start == BooksOf(before)
    ensures books == BooksOf(before + FeePostings(sent, range, dayKey))
    ensures withdrawnUgx == Withdrawn(sent, range, dayKey)
  {
    hide BooksOf, Post, InRange;
    books, withdrawnUgx := start, 0;
    assert before + FeePostings(sent[..0], range, dayKey) == before;
    for i := 0 to |sent|
      invariant books == BooksOf(before + FeePostings(sent[..i], range, dayKey))
      invariant withdrawnUgx == Withdrawn(sent[..i], range, dayKey)
    {
      var w := sent[i];
      var day := dayKey(w.at);
      assert sent[..i + 1][..i] == sent[..i];
      if InRange(day, range) {
        withdrawnUgx := withdrawnUgx + w.amountUgx;
        var p := Posting(EXPENSE, AUTO_WITHDRAWAL_FEES, w.feeUgx, true, day);
        assert before + FeePostings(sent[..i + 1], range, dayKey)
               == before + FeePostings(sent[..i], range, dayKey) + [p];
        BooksOfAppend(before + FeePostings(sent[..i], range, dayKey), p);
        books := Post(books, p);
      }
    }
    assert sent[..|sent|] == sent;
  }

  // ---- What the books guarantee ----

  function SideTotal(ps: seq<Posting>, side: EntryType): int { AmountOf(Side(ps, side)) }

  lemma AddToMonthEffect(m: OMap<string, MonthRow>, p: Posting)
    ensures Column(AddToMonth(m, p), MonthIncome)
            == Column(m, MonthIncome) + if p.side == INCOME then p.amountUgx else 0
    ensures Column(AddToMonth(m, p), MonthExpense)
            == Column(m, MonthExpense) + if p.side == EXPENSE then p.amountUgx else 0
    ensures Column(AddToMonth(m, p), MonthProfit)
            == Column(m, MonthProfit) + if p.side == INCOME then p.amountUgx else -p.amountUgx
  {
    hide Find, Put, Column, Month;
    var row := Find(m, Month(p.day));
    var r := if row.Some? then row.value else MonthRow(0, 0);
    var r' := if p.side == INCOME then r.(incomeUgx := r.incomeUgx + p.amountUgx)
              else r.(expenseUgx := r.expenseUgx + p.amountUgx);
    ColumnOfPut(m, Month(p.day), r', MonthIncome);
    ColumnOfPut(m, Month(p.day), r', MonthExpense);
    ColumnOfPut(m, Month(p.day), r', MonthProfit);
  }

  lemma SideOfAppend(ps: seq<Posting>, p: Posting, side: EntryType)
    ensures SideTotal(ps + [p], side) == SideTotal(ps, side) + if p.side == side then p.amountUgx else 0
  {
    assert (ps + [p])[..|ps|] == ps;
    AmountOfAppend(Side(ps, side), Item(p.category, p.automatic, p.amountUgx));
  }

  /** The months' columns add up to the two sides, and their profits to the difference. */
  lemma {:induction false} MonthsAddUp(ps: seq<Posting>)
    ensures Column(Monthly(ps), MonthIncome) == SideTotal(ps, INCOME)
    ensures Column(Monthly(ps), MonthExpense) == SideTotal(ps, EXPENSE)
    ensures Column(Monthly(ps), MonthProfit) == SideTotal(ps, INCOME) - SideTotal(ps, EXPENSE)
  {
    hide AddToMonth, SideTotal;
    if ps == [] {
      NothingPosted();
    } else {
      var before, p := ps[..|ps| - 1], ps[|ps| - 1];
      assert ps == before + [p];
      MonthsAddUp(before);
      AddToMonthEffect(Monthly(before), p);
      SideOfAppend(before, p, INCOME);
      SideOfAppend(before, p, EXPENSE);
    }
  }

  lemma NothingPosted()
    ensures SideTotal([], INCOME) == 0 == SideTotal([], EXPENSE)
  {
  }

  /** Rows, months and profit tell the same story. */
  lemma BooksBalance(ps: seq<Posting>)
    ensures var b := BooksOf(ps);
            Column(b.income, RowAmount) == Column(b.monthly, MonthIncome)
            && Column(b.expense, RowAmount) == Column(b.monthly, MonthExpense)
            && Column(b.income, RowAmount) - Column(b.expense, RowAmount) == Column(b.monthly, MonthProfit)
  {
    RowsAddUp(Side(ps, INCOME));
    RowsAddUp(Side(ps, EXPENSE));
    MonthsAddUp(ps);
  }

  /** The category of a posting tells whether the system made it. */
  ghost predicate WellFiled(p: Posting) { p.automatic <==> p.category in AUTO }

  lemma {:induction false} EntriesAreWellFiled(entries: seq<Entry>, range: Range, utcDay: int -> string)
    requires forall e :: e in entries ==> IsEntry(e)
    ensures forall p :: p in EntryPostings(entries, range, utcDay) ==> WellFiled(p)
  {
    if entries != [] {
      assert entries[|entries| - 1] in entries && forall e :: e in entries[..|entries| - 1] ==> e in entries;
      EntriesAreWellFiled(entries[..|entries| - 1], range, utcDay);
    }
  }

  lemma {:induction false} SalesAreWellFiled(sales: seq<Earnings.Sale>, range: Range, dayKey: int -> string)
    ensures forall p :: p in SalePostings(sales, range, dayKey) ==> WellFiled(p)
  {
    if sales != [] { SalesAreWellFiled(sales[..|sales| - 1], range, dayKey); }
  }

  lemma {:induction false} FeesAreWellFiled(sent: seq<Sent>, range: Range, dayKey: int -> string)
    ensures forall p :: p in FeePostings(sent, range, dayKey) ==> WellFiled(p)
  {
    if sent != [] { FeesAreWellFiled(sent[..|sent| - 1], range, dayKey); }
  }

  lemma {:induction false} FiledItems(ps: seq<Posting>, side: EntryType, category: string)
    requires forall p :: p in ps ==> WellFiled(p)
    ensures forall e :: e in Under(Side(ps, side), category) ==> e.key == category && (e.tag <==> category in AUTO)
  {
    if ps != [] {
      assert ps[|ps| - 1] in ps && forall p :: p in ps[..|ps| - 1] ==> p in ps;
      FiledItems(ps[..|ps| - 1], side, category);
    }
  }

  /**
   * Automatic and manual money never share a row: in the books of a valid ledger every
   * row's money is all of one kind, the kind its flag says, and AUTO names the automatic ones.
   */
  lemma RowsNeverMix(sales: seq<Earnings.Sale>, entries: seq<Entry>, sent: seq<Sent>,
                     range: Range, calendar: Calendar, side: EntryType, category: string)
    requires forall e :: e in entries ==> IsEntry(e)
    ensures var items := Side(Postings(sales, entries, sent, range, calendar), side);
            var row := Find(TallyOf(items), category);
            row.Some? ==>
              (row.value.tag <==> category in AUTO)
              && row.value.amount == AmountOf(Under(items, category))
              && forall e :: e in Under(items, category) ==> e.tag == row.value.tag
  {
    var ps := Postings(sales, entries, sent, range, calendar);
    SalesAreWellFiled(sales, range, calendar.dayKey);
    EntriesAreWellFiled(entries, range, calendar.utcDay);
    FeesAreWellFiled(sent, range, calendar.dayKey);
    assert forall p :: p in ps ==> WellFiled(p);
    FiledItems(ps, side, category);
    RowOfTally(Side(ps, side), category);
  }

  lemma {:induction false} SideOfConcat(a: seq<Posting>, b: seq<Posting>, side: EntryType)
    ensures SideTotal(a + b, side) == SideTotal(a, side) + SideTotal(b, side)
  {
    hide SideTotal;
    if b == [] {
      NothingPosted();
      assert a + b == a;
    } else {
      var before, p := b[..|b| - 1], b[|b| - 1];
      SideOfConcat(a, before, side);
      assert a + b == a + before + [p] && b == before + [p];
      SideOfAppend(a + before, p, side);
      SideOfAppend(before, p, side);
    }
  }

  lemma NothingSold()
    ensures Earnings.Revenue([]) == 0
  {
  }

  lemma {:induction false} SalesOnIncomeSide(sales: seq<Earnings.Sale>, range: Range, dayKey: int -> string,
                                             days: set<string>)
    requires forall s :: s in sales ==> (InRange(dayKey(s.at), range) <==> dayKey(s.at) in days)
    ensures SideTotal(SalePostings(sales, range, dayKey), INCOME) == Earnings.Revenue(Earnings.On(sales, dayKey, days))
    ensures SideTotal(SalePostings(sales, range, dayKey), EXPENSE) == 0
  {
    hide SideTotal, InRange, SaleCategory, Earnings.Revenue;
    if sales == [] {
      NothingPosted();
      NothingSold();
    } else {
      var before, s := sales[..|sales| - 1], sales[|sales| - 1];
      assert s in sales && forall x :: x in before ==> x in sales;
      SalesOnIncomeSide(before, range, dayKey, days);
      var p := Posting(INCOME, SaleCategory(s.source), s.amountUgx, true, dayKey(s.at));
      SideOfAppend(SalePostings(before, range, dayKey), p, INCOME);
      SideOfAppend(SalePostings(before, range, dayKey), p, EXPENSE);
      Earnings.RevenueOfAppend(Earnings.On(before, dayKey, days), s);
    }
  }

  function FeesPaid(sent: seq<Sent>, range: Range, dayKey: int -> string): int {
    SideTotal(FeePostings(sent, range, dayKey), EXPENSE)
  }

  lemma {:induction false} FeesOnExpenseSide(sent: seq<Sent>, range: Range, dayKey: int -> string)
    ensures SideTotal(FeePostings(sent, range, dayKey), INCOME) == 0
  {
    hide SideTotal;
    if sent == [] {
      NothingPosted();
    } else {
      var before, w := sent[..|sent| - 1], sent[|sent| - 1];
      FeesOnExpenseSide(before, range, dayKey);
      var p := Posting(EXPENSE, AUTO_WITHDRAWAL_FEES, w.feeUgx, true, dayKey(w.at));
      SideOfAppend(FeePostings(before, range, dayKey), p, INCOME);
    }
  }

  // ---- What the windows reach ----

  /** The queries reach every time of the range. */
  ghost predicate Reaches(range: Range, dayKey: int -> string) {
    forall t: int :: InRange(dayKey(t), range) ==> t >= range.fromDate - DAY_MS
  }

  /** The first time whose local day is in the range. */
  ghost predicate IsFirstTime(range: Range, dayKey: int -> string, first: int) {
    InRange(dayKey(first), range) && forall t: int :: t < first ==> !InRange(dayKey(t), range)
  }

  lemma {:induction false} SalesOfConcat(a: seq<Earnings.Sale>, b: seq<Earnings.Sale>, range: Range,
                                         dayKey: int -> string)
    ensures SalePostings(a + b, range, dayKey) == SalePostings(a, range, dayKey) + SalePostings(b, range, dayKey)
  {
    if b == [] {
      assert a + b == a;
    } else {
      assert (a + b)[..|a + b| - 1] == a + b[..|b| - 1];
      SalesOfConcat(a, b[..|b| - 1], range, dayKey);
    }
  }

  lemma SaleOfAppend(sales: seq<Earnings.Sale>, s: Earnings.Sale, range: Range, dayKey: int -> string)
    ensures SalePostings(sales + [s], range, dayKey)
            == SalePostings(sales, range, dayKey)
               + if InRange(dayKey(s.at), range)
                 then [Posting(INCOME, SaleCategory(s.source), s.amountUgx, true, dayKey(s.at))] else []
  {
    assert (sales + [s])[..|sales|] == sales;
  }

  lemma {:induction false} PaymentsPosted(payments: seq<Earnings.Payment>, range: Range, dayKey: int -> string,
                                          earlier: int)
    requires Reaches(range, dayKey) && earlier <= range.fromDate - DAY_MS
    ensures SalePostings(Earnings.PaymentSales(payments, range.fromDate - DAY_MS), range, dayKey)
            == SalePostings(Earnings.PaymentSales(payments, earlier), range, dayKey)
  {
    hide SalePostings;
    if payments != [] {
      var before, p := payments[..|payments| - 1], payments[|payments| - 1];
      PaymentsPosted(before, range, dayKey, earlier);
      var at := Earnings.PaidAt(p);
      var s := Earnings.Sale(p.amountUgx, at, p.provider, p.package.id, p.package.name);
      SaleOfAppend(Earnings.PaymentSales(before, range.fromDate - DAY_MS), s, range, dayKey);
      SaleOfAppend(Earnings.PaymentSales(before, earlier), s, range, dayKey);
    }
  }

  lemma {:induction false} VouchersPosted(vouchers: seq<Earnings.Voucher>, range: Range, dayKey: int -> string,
                                          earlier: int)
    requires Reaches(range, dayKey) && earlier <= range.fromDate - DAY_MS
    ensures SalePostings(Earnings.VoucherSales(vouchers, range.fromDate - DAY_MS), range, dayKey)
            == SalePostings(Earnings.VoucherSales(vouchers, earlier), range, dayKey)
  {
    hide SalePostings;
    if vouchers != [] {
      var before, v := vouchers[..|vouchers| - 1], vouchers[|vouchers| - 1];
      VouchersPosted(before, range, dayKey, earlier);
      if v.activatedAt.Some? {
        var at := v.activatedAt.value;
        var s := Earnings.Sale(v.package.priceUgx, at, Earnings.VOUCHER, v.package.id, v.package.name);
        SaleOfAppend(Earnings.VoucherSales(before, range.fromDate - DAY_MS), s, range, dayKey);
        SaleOfAppend(Earnings.VoucherSales(before, earlier), s, range, dayKey);
      }
    }
  }

  lemma FeeOfAppend(sent: seq<Sent>, w: Sent, range: Range, dayKey: int -> string)
    ensures FeePostings(sent + [w], range, dayKey)
            == FeePostings(sent, range, dayKey)
               + if InRange(dayKey(w.at), range)
                 then [Posting(EXPENSE, AUTO_WITHDRAWAL_FEES, w.feeUgx, true, dayKey(w.at))] else []
    ensures Withdrawn(sent + [w], range, dayKey)
            == Withdrawn(sent, range, dayKey) + if InRange(dayKey(w.at), range) then w.amountUgx else 0
  {
    assert (sent + [w])[..|sent|] == sent;
  }

  lemma {:induction false} WithdrawalsPosted(withdrawals: seq<Withdrawal>, range: Range, dayKey: int -> string,
                                             earlier: int)
    requires Reaches(range, dayKey) && earlier <= range.fromDate - DAY_MS
    ensures FeePostings(SentSince(withdrawals, range.fromDate - DAY_MS), range, dayKey)
            == FeePostings(SentSince(withdrawals, earlier), range, dayKey)
    ensures Withdrawn(SentSince(withdrawals, range.fromDate - DAY_MS), range, dayKey)
            == Withdrawn(SentSince(withdrawals, earlier), range, dayKey)
  {
    hide FeePostings, Withdrawn;
    if withdrawals != [] {
      var before, w := withdrawals[..|withdrawals| - 1], withdrawals[|withdrawals| - 1];
      WithdrawalsPosted(before, range, dayKey, earlier);
      if w.completedAt.Some? {
        var at := w.completedAt.value;
        var s := Sent(w.amountUgx, w.feeUgx, at);
        FeeOfAppend(SentSince(before, range.fromDate - DAY_MS), s, range, dayKey);
        FeeOfAppend(SentSince(before, earlier), s, range, dayKey);
      }
    }
  }

  /** The books of a range the queries reach miss no sale, fee or withdrawal, however far back one looks. */
  lemma BooksMissNothing(payments: seq<Earnings.Payment>, vouchers: seq<Earnings.Voucher>, entries: seq<Entry>,
                         withdrawals: seq<Withdrawal>, range: Range, calendar: Calendar, earlier: int)
    requires Reaches(range, calendar.dayKey) && earlier <= range.fromDate - DAY_MS
    ensures PostingsSince(payments, vouchers, entries, withdrawals, range, calendar, range.fromDate - DAY_MS)
            == PostingsSince(payments, vouchers, entries, withdrawals, range, calendar, earlier)
    ensures Withdrawn(SentSince(withdrawals, range.fromDate - DAY_MS), range, calendar.dayKey)
            == Withdrawn(SentSince(withdrawals, earlier), range, calendar.dayKey)
  {
    hide Reaches, SalePostings, FeePostings, EntryPostings, Withdrawn;
    var since, dayKey := range.fromDate - DAY_MS, calendar.dayKey;
    PaymentsPosted(payments, range, dayKey, earlier);
    VouchersPosted(vouchers, range, dayKey, earlier);
    WithdrawalsPosted(withdrawals, range, dayKey, earlier);
    SalesOfConcat(Earnings.PaymentSales(payments, since), Earnings.VoucherSales(vouchers, since), range, dayKey);
    SalesOfConcat(Earnings.PaymentSales(payments, earlier), Earnings.VoucherSales(vouchers, earlier), range, dayKey);
  }

  // ---- Profit ----

  /** The range is the last `days` days. */
  ghost predicate IsLastDays(range: Range, dayKey: int -> string, now: int, days: nat) {
    forall t: int :: InRange(dayKey(t), range) <==> dayKey(t) in Earnings.ToSet(Earnings.DayKeys(dayKey, now, days))
  }

  lemma SoldInBothReports(payments: seq<Earnings.Payment>, vouchers: seq<Earnings.Voucher>, range: Range,
                          calendar: Calendar, now: int, days: nat)
    requires days >= 7 && Reaches(range, calendar.dayKey) && Earnings.IsCalendar(calendar.dayKey)
    requires IsLastDays(range, calendar.dayKey, now, days)
    ensures var recent := Earnings.Sales(payments, vouchers, now - (days + 1) * DAY_MS);
            var mine := Earnings.Sales(payments, vouchers, range.fromDate - DAY_MS);
            var sold := SalePostings(mine, range, calendar.dayKey);
            SideTotal(sold, INCOME) == Earnings.SummaryOf(recent, calendar.dayKey, now, days).rangeUgx
            && SideTotal(sold, EXPENSE) == 0
  {
    hide SideTotal, SalePostings, Earnings.On, Earnings.Revenue, Earnings.Sales, Earnings.DayKeys, Earnings.ToSet,
      InRange, Earnings.IsCalendar, Earnings.SummaryOf;
    var keys := Earnings.ToSet(Earnings.DayKeys(calendar.dayKey, now, days));
    var mine, theirs := range.fromDate - DAY_MS, now - (days + 1) * DAY_MS;
    var earlier := if mine <= theirs then mine else theirs;
    SalesOnIncomeSide(Earnings.Sales(payments, vouchers, mine), range, calendar.dayKey, keys);
    Earnings.SinceMissesNothing(payments, vouchers, calendar.dayKey, keys, mine, earlier);
    Earnings.SummaryMissesNothing(payments, vouchers, calendar.dayKey, now, days, earlier);
  }

  /**
   * Over the same days the books and the earnings report, each reading its own window,
   * agree on what was sold, and profit is sales and manual income less manual expenses and
   * fees: withdrawn money is no cost.
   */
  lemma ProfitIsSalesLessCosts(payments: seq<Earnings.Payment>, vouchers: seq<Earnings.Voucher>, entries: seq<Entry>,
                               withdrawals: seq<Withdrawal>, range: Range, calendar: Calendar, now: int, days: nat,
                               first: int)
    requires days >= 7 && Earnings.IsCalendar(calendar.dayKey) && IsLastDays(range, calendar.dayKey, now, days)
    requires IsFirstTime(range, calendar.dayKey, first) && range.fromDate - DAY_MS <= first
    ensures var since := range.fromDate - DAY_MS;
            var b := BooksOf(PostingsSince(payments, vouchers, entries, withdrawals, range, calendar, since));
            var manual := EntryPostings(entries, range, calendar.utcDay);
            var recent := Earnings.Sales(payments, vouchers, now - (days + 1) * DAY_MS);
            Column(b.income, RowAmount) - Column(b.expense, RowAmount)
            == Earnings.SummaryOf(recent, calendar.dayKey, now, days).rangeUgx
               + SideTotal(manual, INCOME) - SideTotal(manual, EXPENSE)
               - FeesPaid(SentSince(withdrawals, since), range, calendar.dayKey)
  {
    assert Reaches(range, calendar.dayKey);
    hide SalePostings, EntryPostings, FeePostings, Earnings.Sales, SentSince, Earnings.SummaryOf, Side, Reaches,
      IsFirstTime, IsLastDays, Earnings.IsCalendar, Monthly, Column;
    var since := range.fromDate - DAY_MS;
    var ps := PostingsSince(payments, vouchers, entries, withdrawals, range, calendar, since);
    var a := SalePostings(Earnings.Sales(payments, vouchers, since), range, calendar.dayKey);
    var b := EntryPostings(entries, range, calendar.utcDay);
    var c := FeePostings(SentSince(withdrawals, since), range, calendar.dayKey);
    assert ps == a + b + c;
    RowsAddUp(Side(ps, INCOME));
    RowsAddUp(Side(ps, EXPENSE));
    SideOfConcat(a + b, c, INCOME);
    SideOfConcat(a + b, c, EXPENSE);
    SideOfConcat(a, b, INCOME);
    SideOfConcat(a, b, EXPENSE);
    SoldInBothReports(payments, vouchers, range, calendar, now, days);
    FeesOnExpenseSide(SentSince(withdrawals, since), range, calendar.dayKey);
  }
}

/** Which rows of the tables the reports count, as what, and in which of their rows. */
module BookRows {
  import opened Options
  import opened OrderedMaps
  import opened Tallies
  import opened Earnings
  import L = Ledger
  import Payouts

  // ---- Picking rows in order ----

  ghost predicate InOrder(ids: seq<nat>) { forall k, l :: 0 <= k < l < |ids| ==> ids[k] < ids[l] }

  lemma OneIdMore(ids: seq<nat>, n: nat)
    requires InOrder(ids) && forall i :: i in ids ==> i < n
    ensures InOrder(ids + [n]) && forall i: nat :: i in ids + [n] <==> i in ids || i == n
  {
    assert forall k :: 0 <= k < |ids| ==> ids[k] in ids;
  }

  // ---- Sales ----

  /** When a payment counts: on its completion, or its creation when none was recorded. */
  function CountsAt(p: Payment): int { if p.completedAt.Some? then p.completedAt.value else p.createdAt }

  /** Exactly the successful payments since then, in order, each at its own price, time, provider and package. */
  lemma {:induction false} PaymentsCounted(payments: seq<Payment>, since: int) returns (ids: seq<nat>)
    ensures InOrder(ids) && |ids| == |PaymentSales(payments, since)|
    ensures forall i: nat ::
              i in ids <==> i < |payments| && payments[i].status == SUCCESS && CountsAt(payments[i]) >= since
    ensures forall k :: 0 <= k < |ids| ==>
              ids[k] < |payments|
              && var p := payments[ids[k]];
                 PaymentSales(payments, since)[k]
                 == Sale(p.amountUgx, CountsAt(p), p.provider, p.package.id, p.package.name)
  {
    ids := [];
    if payments != [] {
      var n := |payments| - 1;
      ids := PaymentsCounted(payments[..n], since);
      OneIdMore(ids, n);
      if payments[n].status == SUCCESS && CountsAt(payments[n]) >= since { ids := ids + [n]; }
    }
  }

  /** Exactly the vouchers activated since then that no payment bought, at their package's price. */
  lemma {:induction false} VouchersCounted(vouchers: seq<Voucher>, since: int) returns (ids: seq<nat>)
    ensures InOrder(ids) && |ids| == |VoucherSales(vouchers, since)|
    ensures forall i: nat ::
              i in ids
              <==> i < |vouchers| && vouchers[i].activatedAt.Some? && vouchers[i].activatedAt.value >= since
                   && !vouchers[i].forPayment
    ensures forall k :: 0 <= k < |ids| ==>
              ids[k] < |vouchers| && vouchers[ids[k]].activatedAt.Some?
              && var v := vouchers[ids[k]];
                 VoucherSales(vouchers, since)[k]
                 == Sale(v.package.priceUgx, v.activatedAt.value, VOUCHER, v.package.id, v.package.name)
  {
    ids := [];
    if vouchers != [] {
      var n := |vouchers| - 1;
      ids := VouchersCounted(vouchers[..n], since);
      OneIdMore(ids, n);
      var v := vouchers[n];
      if v.activatedAt.Some? && v.activatedAt.value >= since && !v.forPayment { ids := ids + [n]; }
    }
  }

  // ---- The summary's totals and rows ----

  /** The keys of today and the days before it. */
  function LastDays(dayKey: int -> string, now: int, n: nat): set<string> {
    set i: nat | i < n :: dayKey(now - i * 86_400_000)
  }

  lemma KeysAreLastDays(dayKey: int -> string, now: int, n: nat)
    ensures ToSet(DayKeys(dayKey, now, n)) == LastDays(dayKey, now, n)
  {
    hide DayKeys;
    forall k: string
      ensures k in ToSet(DayKeys(dayKey, now, n)) <==> k in LastDays(dayKey, now, n)
    {
      DayKeyIn(dayKey, now, n, k);
    }
  }

  /** Today's, the week's and the range's takings are those of the last 1, 7 and `days` days. */
  lemma SummaryTotals(sales: seq<Sale>, dayKey: int -> string, now: int, days: nat)
    requires days >= 7
    ensures var r := SummaryOf(sales, dayKey, now, days);
            r.todayUgx == Revenue(On(sales, dayKey, {dayKey(now)}))
            && r.weekUgx == Revenue(On(sales, dayKey, LastDays(dayKey, now, 7)))
            && r.rangeUgx == Revenue(On(sales, dayKey, LastDays(dayKey, now, days)))
            && r.rangeCount == |On(sales, dayKey, LastDays(dayKey, now, days))|
  {
    hide DayKeys, On, Revenue, DailyOf, ZeroDays, LastDays, ToSet;
    KeysAreLastDays(dayKey, now, 7);
    KeysAreLastDays(dayKey, now, days);
  }

  function OfPackage(sales: seq<Sale>, id: string): seq<Sale> {
    if sales == [] then []
    else
      var before, s := OfPackage(sales[..|sales| - 1], id), sales[|sales| - 1];
      if s.packageId == id then before + [s] else before
  }

  function OfSource(sales: seq<Sale>, source: Source): seq<Sale> {
    if sales == [] then []
    else
      var before, s := OfSource(sales[..|sales| - 1], source), sales[|sales| - 1];
      if s.source == source then before + [s] else before
  }

  lemma PackageItemsOfAppend(sales: seq<Sale>, s: Sale)
    ensures PackageItems(sales + [s]) == PackageItems(sales) + [Item(s.packageId, s.packageName, s.amountUgx)]
    ensures SourceItems(sales + [s]) == SourceItems(sales) + [Item(s.source, (), s.amountUgx)]
  {
  }

  lemma UnderOfAppend<K, T>(items: seq<Item<K, T>>, e: Item<K, T>, k: K)
    ensures Under(items + [e], k) == Under(items, k) + if e.key == k then [e] else []
  {
    assert (items + [e])[..|items|] == items;
  }

  lemma {:induction false} UnderPackage(sales: seq<Sale>, id: string)
    ensures Under(PackageItems(sales), id) == PackageItems(OfPackage(sales, id))
  {
    if sales != [] {
      var before, s := sales[..|sales| - 1], sales[|sales| - 1];
      UnderPackage(before, id);
      assert sales == before + [s];
      hide Under, PackageItems;
      PackageItemsOfAppend(before, s);
      PackageItemsOfAppend(OfPackage(before, id), s);
      UnderOfAppend(PackageItems(before), Item(s.packageId, s.packageName, s.amountUgx), id);
    }
  }

  lemma {:induction false} UnderSource(sales: seq<Sale>, source: Source)
    ensures Under(SourceItems(sales), source) == SourceItems(OfSource(sales, source))
  {
    if sales != [] {
      var before, s := sales[..|sales| - 1], sales[|sales| - 1];
      UnderSource(before, source);
      assert sales == before + [s];
      hide Under, SourceItems;
      PackageItemsOfAppend(before, s);
      PackageItemsOfAppend(OfSource(before, source), s);
      UnderOfAppend(SourceItems(before), Item(s.source, (), s.amountUgx), source);
    }
  }

  /**
   * Each package has one row, under the name its first sale carries, and each source one;
   * they hold the takings and the number of their own sales of the range. Without sales
   * there is no row.
   */
  lemma SummaryRows(sales: seq<Sale>, dayKey: int -> string, now: int, days: nat, id: string, source: Source)
    requires days >= 7
    ensures var r := SummaryOf(sales, dayKey, now, days);
            var counted := On(sales, dayKey, LastDays(dayKey, now, days));
            var byId, bySource := OfPackage(counted, id), OfSource(counted, source);
            Find(r.byPackage, id)
            == (if byId == [] then None else Some(Row(byId[0].packageName, Revenue(byId), |byId|)))
            && Find(r.bySource, source)
               == (if bySource == [] then None else Some(Row((), Revenue(bySource), |bySource|)))
  {
    hide DayKeys, On, Revenue, DailyOf, ZeroDays, LastDays, ToSet, TallyOf, Find, Under, OfPackage, OfSource, AmountOf;
    KeysAreLastDays(dayKey, now, days);
    var counted := On(sales, dayKey, LastDays(dayKey, now, days));
    UnderPackage(counted, id);
    UnderSource(counted, source);
    RowOfTally(PackageItems(counted), id);
    RowOfTally(SourceItems(counted), source);
    ItemsCarryRevenue(OfPackage(counted, id));
    ItemsCarryRevenue(OfSource(counted, source));
  }

  // ---- Manual entries ----

  /** `t` is `s` without the blanks at either end. */
  ghost predicate IsTrimmed(s: string, t: string, isBlank: char -> bool) {
    exists i, j ::
      0 <= i <= j <= |s| && t == s[i..j]
      && (forall k :: 0 <= k < i ==> isBlank(s[k])) && (forall k :: j <= k < |s| ==> isBlank(s[k]))
      && (i < j ==> !isBlank(s[i]) && !isBlank(s[j - 1]))
  }

  lemma {:induction false} StartTrims(s: string, isBlank: char -> bool) returns (i: nat)
    ensures i <= |s| && L.TrimStart(s, isBlank) == s[i..]
    ensures (forall k :: 0 <= k < i ==> isBlank(s[k])) && (i < |s| ==> !isBlank(s[i]))
  {
    i := 0;
    if s != "" && isBlank(s[0]) {
      var j := StartTrims(s[1..], isBlank);
      i := j + 1;
      assert s[1..][j..] == s[i..];
    }
  }

  lemma {:induction false} EndTrims(s: string, isBlank: char -> bool) returns (j: nat)
    ensures j <= |s| && L.TrimEnd(s, isBlank) == s[..j]
    ensures (forall k :: j <= k < |s| ==> isBlank(s[k])) && (j > 0 ==> !isBlank(s[j - 1]))
  {
    j := |s|;
    if s != "" && isBlank(s[|s| - 1]) {
      j := EndTrims(s[..|s| - 1], isBlank);
      assert s[..|s| - 1][..j] == s[..j];
    }
  }

  lemma TrimTrims(s: string, isBlank: char -> bool)
    ensures IsTrimmed(s, L.Trim(s, isBlank), isBlank)
    ensures L.Trim(s, isBlank) == "" <==> forall k :: 0 <= k < |s| ==> isBlank(s[k])
  {
    var i := StartTrims(s, isBlank);
    var j := EndTrims(s[i..], isBlank);
    hide L.TrimStart, L.TrimEnd;
    assert s[i..][..j] == s[i..i + j];
    assert forall k :: i <= k < |s| ==> s[i..][k - i] == s[k];
  }

  /** The order in which texts compare: by the first character that differs, a shorter one before what extends it. */
  ghost predicate ComesFirst(a: string, b: string) {
    a <= b || exists i :: 0 <= i < |a| && i < |b| && a[..i] == b[..i] && a[i] < b[i]
  }

  lemma {:induction false} AtMostCompares(a: string, b: string)
    ensures L.AtMost(a, b) <==> ComesFirst(a, b)
  {
    if a != "" && b != "" && a[0] == b[0] {
      AtMostCompares(a[1..], b[1..]);
      assert a == [a[0]] + a[1..] && b == [b[0]] + b[1..];
      if i :| 0 <= i < |a| && i < |b| && a[..i] == b[..i] && a[i] < b[i] {
        assert i > 0 && a[1..][..i - 1] == a[..i][1..] && b[1..][..i - 1] == b[..i][1..];
        assert a[1..][i - 1] < b[1..][i - 1];
      }
      if i :| 0 <= i < |a| - 1 && i < |b| - 1 && a[1..][..i] == b[1..][..i] && a[1..][i] < b[1..][i] {
        assert a[..i + 1] == [a[0]] + a[1..][..i] && b[..i + 1] == [b[0]] + b[1..][..i];
        assert a[i + 1] < b[i + 1];
      }
    } else if a != "" && b != "" {
      assert a[..0] == b[..0];
    }
  }

  /** What can be wrong with an entry that is sent in. */
  ghost predicate IsWrong(input: L.Input, calendar: L.Calendar, now: int, why: L.Refusal) {
    match why
    case ChooseType => input.kind.None?
    case ChooseCategory => forall k :: 0 <= k < |input.category| ==> calendar.isBlank(input.category[k])
    case AutomaticCategory =>
      exists c :: IsTrimmed(input.category, c, calendar.isBlank)
                  && c in {"Mobile money sales", "Printed voucher sales", "Manual payments", "Withdrawal fees"}
    case AmountNotPositive => input.amountUgx <= 0
    case AmountTooLarge => input.amountUgx > 1_000_000_000
    case PickDate => !L.LooksLikeDate(input.occurredOn)
    case InvalidDate => calendar.midnight(input.occurredOn).None?
    case FutureDate => !ComesFirst(input.occurredOn, calendar.dayKey(now))
    case _ => false
  }

  function Rank(why: L.Refusal): nat {
    match why
    case ChooseType => 0
    case ChooseCategory => 1
    case AutomaticCategory => 2
    case AmountNotPositive => 3
    case AmountTooLarge => 4
    case PickDate => 5
    case InvalidDate => 6
    case _ => 7
  }

  lemma TrimmedIsUnique(s: string, t: string, u: string, isBlank: char -> bool)
    requires IsTrimmed(s, t, isBlank) && IsTrimmed(s, u, isBlank)
    ensures t == u
  {
    var i, j :| 0 <= i <= j <= |s| && t == s[i..j]
                && (forall k :: 0 <= k < i ==> isBlank(s[k])) && (forall k :: j <= k < |s| ==> isBlank(s[k]))
                && (i < j ==> !isBlank(s[i]) && !isBlank(s[j - 1]));
    var m, n :| 0 <= m <= n <= |s| && u == s[m..n]
                && (forall k :: 0 <= k < m ==> isBlank(s[k])) && (forall k :: n <= k < |s| ==> isBlank(s[k]))
                && (m < n ==> !isBlank(s[m]) && !isBlank(s[n - 1]));
    if i < j && m < n {
      assert i == m && j == n;
    }
  }

  lemma AutomaticIs(input: L.Input, calendar: L.Calendar, now: int)
    ensures IsWrong(input, calendar, now, L.AutomaticCategory)
            <==> L.Trim(input.category, calendar.isBlank) in L.AUTO
  {
    hide L.Trim;
    var t := L.Trim(input.category, calendar.isBlank);
    TrimTrims(input.category, calendar.isBlank);
    forall c | IsTrimmed(input.category, c, calendar.isBlank)
      ensures c == t
    {
      TrimmedIsUnique(input.category, c, t, calendar.isBlank);
    }
    hide IsTrimmed;
  }

  /**
   * An entry is taken exactly when nothing is wrong with it, with its category trimmed; a
   * refusal names the first thing that is wrong.
   */
  lemma ValidateJudges(input: L.Input, calendar: L.Calendar, now: int)
    ensures var r := L.Validate(input, calendar, now);
            (r.Ok? <==> forall why :: !IsWrong(input, calendar, now, why))
            && (r.Ok? ==> Some(r.value.kind) == input.kind && r.value.amountUgx == input.amountUgx
                          && IsTrimmed(input.category, r.value.category, calendar.isBlank)
                          && Some(r.value.occurredOn) == calendar.midnight(input.occurredOn) && !r.value.deleted)
            && (r.Err? ==> IsWrong(input, calendar, now, r.error)
                           && forall why :: IsWrong(input, calendar, now, why) ==> Rank(r.error) <= Rank(why))
  {
    hide L.Trim, L.AtMost, IsTrimmed, ComesFirst;
    TrimTrims(input.category, calendar.isBlank);
    AutomaticIs(input, calendar, now);
    AtMostCompares(input.occurredOn, calendar.dayKey(now));
    var r := L.Validate(input, calendar, now);
    forall why | IsWrong(input, calendar, now, why)
      ensures r.Err? && Rank(r.error) <= Rank(why)
    {
    }
    if r.Err? { assert IsWrong(input, calendar, now, r.error); }
  }

  /**
   * A range is what was asked for, with the first of this month for a start that is no date
   * and today for an end that is none; it is refused when its start comes after its end.
   */
  lemma RangeAsked(from: string, to: string, calendar: L.Calendar, now: int)
    ensures var today := calendar.dayKey(now);
            var start := if L.LooksLikeDate(from) then from
                         else (if |today| >= 7 then today[..7] else today) + "-01";
            var end := if L.LooksLikeDate(to) then to else today;
            match L.RangeOf(from, to, calendar, now)
            case Err(why) =>
              (why == L.BadRange <==> !ComesFirst(start, end))
              && (why == L.QueryFails <==> ComesFirst(start, end)
                                           && (calendar.midnight(start).None? || calendar.midnight(end).None?))
              && why in {L.BadRange, L.QueryFails}
            case Ok(range) =>
              ComesFirst(start, end) && range.from == start && range.to == end
              && Some(range.fromDate) == calendar.midnight(start) && Some(range.toDate) == calendar.midnight(end)
  {
    var today := calendar.dayKey(now);
    assert L.Month(today) == (if |today| >= 7 then today[..7] else today);
    var start := if L.LooksLikeDate(from) then from else L.Month(today) + "-01";
    var end := if L.LooksLikeDate(to) then to else today;
    hide L.AtMost, ComesFirst, L.LooksLikeDate, L.Month;
    AtMostCompares(start, end);
  }

  // ---- Postings ----

  /** The day lies in the range. */
  ghost predicate InDays(day: string, range: L.Range) { ComesFirst(range.from, day) && ComesFirst(day, range.to) }

  lemma InDaysIs(day: string, range: L.Range)
    ensures L.InRange(day, range) <==> InDays(day, range)
  {
    hide L.AtMost, ComesFirst;
    AtMostCompares(range.from, day);
    AtMostCompares(day, range.to);
  }

  /** A sale is posted as income, filed by its source. */
  lemma {:induction false} SalesPosted(sales: seq<Sale>, range: L.Range, dayKey: int -> string) returns (ids: seq<nat>)
    ensures InOrder(ids) && |ids| == |L.SalePostings(sales, range, dayKey)|
    ensures forall i: nat :: i in ids <==> i < |sales| && InDays(dayKey(sales[i].at), range)
    ensures forall k :: 0 <= k < |ids| ==>
              ids[k] < |sales|
              && var s := sales[ids[k]];
                 L.SalePostings(sales, range, dayKey)[k]
                 == L.Posting(L.INCOME,
                              if s.source == VOUCHER then "Printed voucher sales"
                              else if s.source == MANUAL then "Manual payments" else "Mobile money sales",
                              s.amountUgx, true, dayKey(s.at))
  {
    ids := [];
    if sales != [] {
      var n := |sales| - 1;
      ids := SalesPosted(sales[..n], range, dayKey);
      hide L.InRange, InDays;
      OneIdMore(ids, n);
      InDaysIs(dayKey(sales[n].at), range);
      if L.InRange(dayKey(sales[n].at), range) { ids := ids + [n]; }
    }
  }

  /** An entry that still counts is posted on its own side, under its own category and UTC day. */
  lemma {:induction false} EntriesPosted(entries: seq<L.Entry>, range: L.Range, utcDay: int -> string)
    returns (ids: seq<nat>)
    ensures InOrder(ids) && |ids| == |L.EntryPostings(entries, range, utcDay)|
    ensures forall i: nat ::
              i in ids
              <==> i < |entries| && !entries[i].deleted && range.fromDate <= entries[i].occurredOn <= range.toDate
    ensures forall k :: 0 <= k < |ids| ==>
              ids[k] < |entries|
              && var e := entries[ids[k]];
                 L.EntryPostings(entries, range, utcDay)[k]
                 == L.Posting(e.kind, e.category, e.amountUgx, false, utcDay(e.occurredOn))
  {
    ids := [];
    if entries != [] {
      var n := |entries| - 1;
      ids := EntriesPosted(entries[..n], range, utcDay);
      OneIdMore(ids, n);
      if !entries[n].deleted && range.fromDate <= entries[n].occurredOn <= range.toDate { ids := ids + [n]; }
    }
  }

  /** Of the withdrawals, the completed ones that succeeded are counted, each with its own amount, fee and time. */
  lemma {:induction false} WithdrawalsSent(withdrawals: seq<L.Withdrawal>, since: int) returns (ids: seq<nat>)
    ensures InOrder(ids) && |ids| == |L.SentSince(withdrawals, since)|
    ensures forall i: nat ::
              i in ids
              <==> i < |withdrawals| && withdrawals[i].status == Payouts.SUCCESS
                   && withdrawals[i].completedAt.Some? && withdrawals[i].completedAt.value >= since
    ensures forall k :: 0 <= k < |ids| ==>
              ids[k] < |withdrawals| && withdrawals[ids[k]].completedAt.Some?
              && var w := withdrawals[ids[k]];
                 L.SentSince(withdrawals, since)[k] == L.Sent(w.amountUgx, w.feeUgx, w.completedAt.value)
  {
    ids := [];
    if withdrawals != [] {
      var n := |withdrawals| - 1;
      ids := WithdrawalsSent(withdrawals[..n], since);
      OneIdMore(ids, n);
      var w := withdrawals[n];
      if w.status == Payouts.SUCCESS && w.completedAt.Some? && w.completedAt.value >= since { ids := ids + [n]; }
    }
  }

  /** Only a withdrawal's fee is posted, as an expense; its amount is added up beside the books. */
  lemma {:induction false} FeesPosted(sent: seq<L.Sent>, range: L.Range, dayKey: int -> string) returns (ids: seq<nat>)
    ensures InOrder(ids) && |ids| == |L.FeePostings(sent, range, dayKey)|
    ensures forall i: nat :: i in ids <==> i < |sent| && InDays(dayKey(sent[i].at), range)
    ensures forall k :: 0 <= k < |ids| ==>
              ids[k] < |sent|
              && L.FeePostings(sent, range, dayKey)[k]
                 == L.Posting(L.EXPENSE, "Withdrawal fees", sent[ids[k]].feeUgx, true, dayKey(sent[ids[k]].at))
    ensures L.Withdrawn(sent, range, dayKey) == AmountsAt(sent, ids)
  {
    hide L.FeePostings, L.Withdrawn, L.InRange, InDays, AmountsAt;
    ids := [];
    if sent == [] {
      NothingSent(range, dayKey);
    } else {
      var n := |sent| - 1;
      var before, w := sent[..n], sent[n];
      ids := FeesPosted(before, range, dayKey);
      assert sent == before + [w];
      L.FeeOfAppend(before, w, range, dayKey);
      assert forall k :: 0 <= k < |ids| ==> ids[k] in ids;
      AmountsOfPrefix(sent, n, ids);
      AmountsMore(sent, ids, n);
      OneIdMore(ids, n);
      InDaysIs(dayKey(w.at), range);
      if L.InRange(dayKey(w.at), range) { ids := ids + [n]; }
    }
  }

  lemma NothingSent(range: L.Range, dayKey: int -> string)
    ensures L.FeePostings([], range, dayKey) == [] && L.Withdrawn([], range, dayKey) == 0 == AmountsAt([], [])
  {
  }

  lemma AmountsMore(sent: seq<L.Sent>, ids: seq<nat>, n: nat)
    requires n < |sent|
    ensures AmountsAt(sent, ids + [n]) == AmountsAt(sent, ids) + sent[n].amountUgx
  {
    assert (ids + [n])[..|ids|] == ids;
  }

  /** The amounts of these withdrawals. */
  ghost function AmountsAt(sent: seq<L.Sent>, ids: seq<nat>): int {
    if ids == [] then 0
    else AmountsAt(sent, ids[..|ids| - 1])
         + if ids[|ids| - 1] < |sent| then sent[ids[|ids| - 1]].amountUgx else 0
  }

  lemma {:induction false} AmountsOfPrefix(sent: seq<L.Sent>, n: nat, ids: seq<nat>)
    requires n <= |sent| && forall k :: 0 <= k < |ids| ==> ids[k] < n
    ensures AmountsAt(sent[..n], ids) == AmountsAt(sent, ids)
  {
    if ids != [] {
      AmountsOfPrefix(sent, n, ids[..|ids| - 1]);
    }
  }

  // ---- Months ----

  /** The postings of one month: those whose day begins with its seven characters. */
  function OfMonth(ps: seq<L.Posting>, month: string): seq<L.Posting> {
    if ps == [] then []
    else
      var before, p := OfMonth(ps[..|ps| - 1], month), ps[|ps| - 1];
      if (if |p.day| < 7 then p.day else p.day[..7]) == month then before + [p] else before
  }

  lemma MonthAfter(m: OMap<string, L.MonthRow>, p: L.Posting, month: string)
    ensures var row := if Find(m, month).Some? then Find(m, month).value else L.MonthRow(0, 0);
            Find(L.AddToMonth(m, p), month)
            == if (if |p.day| < 7 then p.day else p.day[..7]) != month then Find(m, month)
               else if p.side == L.INCOME then Some(L.MonthRow(row.incomeUgx + p.amountUgx, row.expenseUgx))
               else Some(L.MonthRow(row.incomeUgx, row.expenseUgx + p.amountUgx))
  {
    hide Find, Put;
    assert |p.day| == 7 ==> p.day[..7] == p.day;
    if L.Month(p.day) != month {
      var row := Find(m, L.Month(p.day));
      var r := if row.Some? then row.value else L.MonthRow(0, 0);
      PutSparesOthers(m, L.Month(p.day),
                      if p.side == L.INCOME then r.(incomeUgx := r.incomeUgx + p.amountUgx)
                      else r.(expenseUgx := r.expenseUgx + p.amountUgx), month);
    }
  }

  /** A month's row holds the income and the expense of its own postings; a month without any has none. */
  lemma {:induction false} MonthHolds(ps: seq<L.Posting>, month: string)
    ensures var mine := OfMonth(ps, month);
            Find(L.Monthly(ps), month)
            == if mine == [] then None
               else Some(L.MonthRow(L.SideTotal(mine, L.INCOME), L.SideTotal(mine, L.EXPENSE)))
  {
    hide Find, L.AddToMonth, L.SideTotal, L.Monthly, OfMonth;
    if ps == [] {
      NoMonth(month);
    } else {
      var before, p := ps[..|ps| - 1], ps[|ps| - 1];
      MonthHolds(before, month);
      MonthlyMore(ps, month);
      MonthAfter(L.Monthly(before), p, month);
      L.SideOfAppend(OfMonth(before, month), p, L.INCOME);
      L.SideOfAppend(OfMonth(before, month), p, L.EXPENSE);
      L.NothingPosted();
    }
  }

  lemma NoMonth(month: string)
    ensures Find(L.Monthly([]), month) == None && OfMonth([], month) == []
  {
  }

  lemma MonthlyMore(ps: seq<L.Posting>, month: string)
    requires ps != []
    ensures var before, p := ps[..|ps| - 1], ps[|ps| - 1];
            L.Monthly(ps) == L.AddToMonth(L.Monthly(before), p)
            && OfMonth(ps, month) == (if (if |p.day| < 7 then p.day else p.day[..7]) == month
                                      then OfMonth(before, month) + [p] else OfMonth(before, month))
  {
    hide L.AddToMonth;
  }
}

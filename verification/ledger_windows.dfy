/**
 * How far back the summary's queries reach: exactly when its books miss nothing, when they
 * do not by the calendar alone, and a date that makes them miss a sale.
 */
module LedgerWindows {
  import opened Options
  import opened Ledger
  import Earnings
  import Payouts

  // ---- The exact condition ----

  /** The books of the range, and what was withdrawn, are the same however much further back the queries reach. */
  ghost predicate MissesNothing(range: Range, calendar: Calendar) {
    (forall payments: seq<Earnings.Payment>, vouchers: seq<Earnings.Voucher>, entries: seq<Entry>,
            withdrawals: seq<Withdrawal>, earlier: int :: earlier <= range.fromDate - DAY_MS ==>
       PostingsSince(payments, vouchers, entries, withdrawals, range, calendar, range.fromDate - DAY_MS)
       == PostingsSince(payments, vouchers, entries, withdrawals, range, calendar, earlier))
    && (forall withdrawals: seq<Withdrawal>, earlier: int :: earlier <= range.fromDate - DAY_MS ==>
          Withdrawn(SentSince(withdrawals, range.fromDate - DAY_MS), range, calendar.dayKey)
          == Withdrawn(SentSince(withdrawals, earlier), range, calendar.dayKey))
  }

  lemma ReachingMissesNothing(range: Range, calendar: Calendar)
    requires Reaches(range, calendar.dayKey)
    ensures MissesNothing(range, calendar)
  {
    hide Reaches, PostingsSince, Withdrawn, SentSince;
    forall payments: seq<Earnings.Payment>, vouchers: seq<Earnings.Voucher>, entries: seq<Entry>,
           withdrawals: seq<Withdrawal>, earlier: int | earlier <= range.fromDate - DAY_MS
      ensures PostingsSince(payments, vouchers, entries, withdrawals, range, calendar, range.fromDate - DAY_MS)
              == PostingsSince(payments, vouchers, entries, withdrawals, range, calendar, earlier)
    {
      BooksMissNothing(payments, vouchers, entries, withdrawals, range, calendar, earlier);
    }
    forall withdrawals: seq<Withdrawal>, earlier: int | earlier <= range.fromDate - DAY_MS
      ensures Withdrawn(SentSince(withdrawals, range.fromDate - DAY_MS), range, calendar.dayKey)
              == Withdrawn(SentSince(withdrawals, earlier), range, calendar.dayKey)
    {
      BooksMissNothing([], [], [], withdrawals, range, calendar, earlier);
    }
  }

  /** A successful payment at one time. */
  function Paid(at: int): Earnings.Payment {
    Earnings.Payment(Earnings.SUCCESS, Earnings.SSENTEZO, 500, Some(at), at, Earnings.Package("", "", 500))
  }

  lemma OnlySale(range: Range, calendar: Calendar, at: int, since: int)
    requires InRange(calendar.dayKey(at), range)
    ensures |PostingsSince([Paid(at)], [], [], [], range, calendar, since)| == if at >= since then 1 else 0
  {
    var p := Paid(at);
    var s := Earnings.Sale(p.amountUgx, at, p.provider, p.package.id, p.package.name);
    assert [p][..0] == [] && [s][..0] == [];
    assert Earnings.PaymentSales([], since) == [] && Earnings.VoucherSales([], since) == [];
    assert Earnings.PaymentSales([p], since) == if at >= since then [s] else [];
    assert Earnings.Sales([p], [], since) == if at >= since then [] + [s] else [];
    SaleOfAppend([], s, range, calendar.dayKey);
    assert SalePostings([], range, calendar.dayKey) == [];
  }

  /**
   * Whatever is in the tables, the books of a range miss nothing exactly when the midnight
   * read for its start is at most a day past the first local time of the range.
   */
  lemma MissesNothingExactlyWhen(range: Range, calendar: Calendar, first: int)
    requires IsFirstTime(range, calendar.dayKey, first)
    ensures MissesNothing(range, calendar) <==> range.fromDate - DAY_MS <= first
  {
    var since := range.fromDate - DAY_MS;
    if since <= first {
      ReachingMissesNothing(range, calendar);
    } else {
      hide PostingsSince;
      OnlySale(range, calendar, first, since);
      OnlySale(range, calendar, first, first);
      assert PostingsSince([Paid(first)], [], [], [], range, calendar, since)
          != PostingsSince([Paid(first)], [], [], [], range, calendar, first);
    }
  }

  /** A range no local time falls into misses nothing. */
  lemma EmptyRangeMissesNothing(range: Range, calendar: Calendar)
    requires forall t: int :: !InRange(calendar.dayKey(t), range)
    ensures MissesNothing(range, calendar)
  {
    ReachingMissesNothing(range, calendar);
  }

  // ---- Dates that exist ----

  lemma {:induction false} AtMostItself(a: string)
    ensures AtMost(a, a)
  {
    if a != "" { AtMostItself(a[1..]); }
  }

  lemma {:induction false} AtMostThrough(a: string, b: string, c: string)
    requires AtMost(a, b) && AtMost(b, c)
    ensures AtMost(a, c)
  {
    if a != "" && a[0] == b[0] && b[0] == c[0] { AtMostThrough(a[1..], b[1..], c[1..]); }
  }

  lemma {:induction false} AtMostBothWays(a: string, b: string)
    requires AtMost(a, b) && AtMost(b, a)
    ensures a == b
  {
    if a != "" {
      AtMostBothWays(a[1..], b[1..]);
      assert a == [a[0]] + a[1..] && b == [b[0]] + b[1..];
    }
  }

  /** Later times never have earlier days. */
  ghost predicate InOrder(dayKey: int -> string) {
    forall t: int, u: int :: t <= u ==> AtMost(dayKey(t), dayKey(u))
  }

  /** With days in order, a range that any local time falls into has a first one. */
  lemma {:induction false} FirstTime(range: Range, dayKey: int -> string, before: int, t: int) returns (first: int)
    requires InOrder(dayKey) && before < t && !AtMost(range.from, dayKey(before)) && InRange(dayKey(t), range)
    ensures IsFirstTime(range, dayKey, first)
    decreases t - before
  {
    if InRange(dayKey(t - 1), range) {
      first := FirstTime(range, dayKey, before, t - 1);
    } else {
      first := t;
      forall u: int | u < t
        ensures !InRange(dayKey(u), range)
      {
        if InRange(dayKey(u), range) {
          AtMostThrough(range.from, dayKey(u), dayKey(t - 1));
          AtMostThrough(dayKey(t - 1), dayKey(t), range.to);
        }
      }
    }
  }

  /**
   * UTC days come in order, and the local day of a time is the UTC day of a time less than
   * a day away, as in every time zone.
   */
  ghost predicate IsZone(calendar: Calendar, offset: int -> int) {
    InOrder(calendar.utcDay)
    && forall t: int :: -DAY_MS < offset(t) < DAY_MS && calendar.dayKey(t) == calendar.utcDay(t + offset(t))
  }

  /** The midnight read for this text starts the day the text names. */
  predicate Exists(date: string, calendar: Calendar) {
    calendar.midnight(date).Some?
    && var m := calendar.midnight(date).value;
       calendar.utcDay(m) == date && calendar.utcDay(m - 1) != date
  }

  /** In UTC an existing date begins at the midnight read for it. */
  lemma BeginsAtMidnight(date: string, calendar: Calendar, t: int)
    requires InOrder(calendar.utcDay) && Exists(date, calendar) && t < calendar.midnight(date).value
    ensures !AtMost(date, calendar.utcDay(t))
  {
    var m := calendar.midnight(date).value;
    if AtMost(date, calendar.utcDay(t)) {
      AtMostThrough(date, calendar.utcDay(t), calendar.utcDay(m - 1));
      AtMostBothWays(date, calendar.utcDay(m - 1));
    }
  }

  /** In any zone less than a day from UTC, the books of a range that starts on a date that exists miss nothing. */
  lemma ExistingDatesMissNothing(from: string, to: string, calendar: Calendar, now: int, offset: int -> int)
    requires IsZone(calendar, offset) && RangeOf(from, to, calendar, now).Ok?
    requires Exists(RangeOf(from, to, calendar, now).value.from, calendar)
    ensures MissesNothing(RangeOf(from, to, calendar, now).value, calendar)
  {
    var range := RangeOf(from, to, calendar, now).value;
    forall t: int | InRange(calendar.dayKey(t), range)
      ensures t >= range.fromDate - DAY_MS
    {
      if t + offset(t) < range.fromDate { BeginsAtMidnight(range.from, calendar, t + offset(t)); }
    }
    ReachingMissesNothing(range, calendar);
  }

  // ---- A date that does not ----

  const OFFSET_MS := 10_800_000

  function DaysIn(month: nat): nat {
    if month == 2 then 28 else if month in {4, 6, 9, 11} then 30 else 31
  }

  function DaysBefore(month: nat): nat {
    if month <= 1 then 0 else DaysBefore(month - 1) + DaysIn(month - 1)
  }

  function Digit(d: nat): char
    requires d < 10
  {
    ('0' as int + d) as char
  }

  function TwoDigits(n: nat): string { [Digit(n / 10 % 10), Digit(n % 10)] }

  function Number(s: string): int
    requires |s| == 2
  {
    (s[0] as int - '0' as int) * 10 + (s[1] as int - '0' as int)
  }

  /** The date so many days after the first of a month of 2026. */
  function DateFrom(month: nat, days: nat): string
    decreases 13 - month
  {
    if month >= 13 then "2027-01-01"
    else if days < DaysIn(month) then "2026-" + TwoDigits(month) + "-" + TwoDigits(days + 1)
    else DateFrom(month + 1, days - DaysIn(month))
  }

  /** Times count from the start of 2026. */
  function DateAt(t: int): string { if t < 0 then "2025-12-31" else DateFrom(1, t / DAY_MS) }

  /** A day number up to 31 is accepted in every month and runs over into the next. */
  function MidnightOf(date: string): Option<int> {
    if LooksLikeDate(date) && date[..5] == "2026-" && 1 <= Number(date[5..7]) <= 12 && 1 <= Number(date[8..]) <= 31
    then Some((DaysBefore(Number(date[5..7])) + Number(date[8..]) - 1) * DAY_MS)
    else None
  }

  /** The year 2026, three hours ahead of UTC. */
  const YEAR_2026 := Calendar(c => c == ' ', MidnightOf, DateAt, t => DateAt(t + OFFSET_MS))

  /** 1 March 2026, at 3 in the morning local time. */
  const FIRST_OF_MARCH := 59 * DAY_MS

  const NO_SUCH_DATE := "2026-02-31"
  const MID_MARCH := "2026-03-12"

  lemma {:induction false} AtMostAfter(prefix: string, a: string, b: string)
    ensures AtMost(prefix + a, prefix + b) <==> AtMost(a, b)
  {
    if prefix == "" {
      assert prefix + a == a && prefix + b == b;
    } else {
      assert (prefix + a)[1..] == prefix[1..] + a && (prefix + b)[1..] == prefix[1..] + b;
      AtMostAfter(prefix[1..], a, b);
    }
  }

  lemma MarchDates()
    ensures DateAt(FIRST_OF_MARCH + OFFSET_MS) == "2026-03-01"
    ensures MidnightOf(NO_SUCH_DATE) == Some(61 * DAY_MS) && MidnightOf(MID_MARCH).Some?
  {
    assert (FIRST_OF_MARCH + OFFSET_MS) / DAY_MS == 59;
    assert DateFrom(1, 59) == DateFrom(2, 28) == DateFrom(3, 0) == "2026-" + TwoDigits(3) + "-" + TwoDigits(1);
    assert TwoDigits(3) == "03" && TwoDigits(1) == "01";
    assert NO_SUCH_DATE[..5] == "2026-" && NO_SUCH_DATE[5..7] == "02" && NO_SUCH_DATE[8..] == "31";
    assert MID_MARCH[..5] == "2026-" && MID_MARCH[5..7] == "03" && MID_MARCH[8..] == "12";
    assert DaysBefore(2) == 31;
  }

  lemma MarchOrder()
    ensures AtMost(NO_SUCH_DATE, "2026-03-01") && AtMost("2026-03-01", MID_MARCH) && AtMost(NO_SUCH_DATE, MID_MARCH)
  {
    AtMostAfter("2026-0", "2-31", "3-01");
    AtMostAfter("2026-0", "2-31", "3-12");
    AtMostAfter("2026-03-", "01", "12");
    assert "2026-0" + "2-31" == NO_SUCH_DATE && "2026-0" + "3-12" == MID_MARCH && "2026-0" + "3-01" == "2026-03-01";
    assert "2026-03-" + "01" == "2026-03-01" && "2026-03-" + "12" == MID_MARCH;
  }

  /**
   * A summary from 31 February, which is read as 3 March: a payment of local 1 March is in
   * the range, and the books miss it.
   */
  lemma NoSuchDateMissesASale(now: int)
    ensures var found := RangeOf(NO_SUCH_DATE, MID_MARCH, YEAR_2026, now);
            found == Ok(Range(NO_SUCH_DATE, MID_MARCH, 61 * DAY_MS, MidnightOf(MID_MARCH).value))
            && InRange(YEAR_2026.dayKey(FIRST_OF_MARCH), found.value)
            && PostingsSince([Paid(FIRST_OF_MARCH)], [], [], [], found.value, YEAR_2026,
                             found.value.fromDate - DAY_MS) == []
            && |PostingsSince([Paid(FIRST_OF_MARCH)], [], [], [], found.value, YEAR_2026, FIRST_OF_MARCH)| == 1
  {
    MarchDates();
    MarchOrder();
    assert LooksLikeDate(NO_SUCH_DATE) && LooksLikeDate(MID_MARCH);
    hide DateAt, MidnightOf, AtMost, LooksLikeDate, PostingsSince;
    var range := RangeOf(NO_SUCH_DATE, MID_MARCH, YEAR_2026, now).value;
    OnlySale(range, YEAR_2026, FIRST_OF_MARCH, range.fromDate - DAY_MS);
    OnlySale(range, YEAR_2026, FIRST_OF_MARCH, FIRST_OF_MARCH);
  }
}

/**
 * What was sold, per local day, package and source. The calendar is any function from
 * times to day keys.
 */
module Earnings {
  import opened Options
  import opened OrderedMaps
  import opened Tallies

  const DAY_MS := 86_400_000

  datatype PaymentStatus = PENDING | SUCCESS | FAILED | CANCELLED
  datatype Source = SSENTEZO | MANUAL | VOUCHER

  datatype Package = Package(id: string, name: string, priceUgx: int)
  datatype Payment = Payment(status: PaymentStatus, provider: Source, amountUgx: int, completedAt: Option<int>,
                             createdAt: int, package: Package)
  datatype Voucher = Voucher(activatedAt: Option<int>, forPayment: bool, package: Package)
  datatype Sale = Sale(amountUgx: int, at: int, source: Source, packageId: string, packageName: string)

  // ---- Sales ----

  function PaidAt(p: Payment): int { if p.completedAt.Some? then p.completedAt.value else p.createdAt }

  function PaymentSales(payments: seq<Payment>, since: int): seq<Sale> {
    if payments == [] then []
    else
      var p := payments[|payments| - 1];
      var before := PaymentSales(payments[..|payments| - 1], since);
      if p.status == SUCCESS && PaidAt(p) >= since
      then before + [Sale(p.amountUgx, PaidAt(p), p.provider, p.package.id, p.package.name)] else before
  }

  function VoucherSales(vouchers: seq<Voucher>, since: int): seq<Sale> {
    if vouchers == [] then []
    else
      var v := vouchers[|vouchers| - 1];
      var before := VoucherSales(vouchers[..|vouchers| - 1], since);
      if v.activatedAt.Some? && v.activatedAt.value >= since && !v.forPayment
      then before + [Sale(v.package.priceUgx, v.activatedAt.value, VOUCHER, v.package.id, v.package.name)] else before
  }

  function Sales(payments: seq<Payment>, vouchers: seq<Voucher>, since: int): seq<Sale> {
    PaymentSales(payments, since) + VoucherSales(vouchers, since)
  }

  /** The sales of some days, in order. */
  function On(sales: seq<Sale>, dayKey: int -> string, days: set<string>): seq<Sale> {
    if sales == [] then []
    else
      var s := sales[|sales| - 1];
      var before := On(sales[..|sales| - 1], dayKey, days);
      if dayKey(s.at) in days then before + [s] else before
  }

  function Revenue(sales: seq<Sale>): int {
    if sales == [] then 0 else Revenue(sales[..|sales| - 1]) + sales[|sales| - 1].amountUgx
  }

  function Vouchers(sales: seq<Sale>, yes: bool): seq<Sale> {
    if sales == [] then []
    else
      var s := sales[|sales| - 1];
      var before := Vouchers(sales[..|sales| - 1], yes);
      if (s.source == VOUCHER) == yes then before + [s] else before
  }

  lemma RevenueOfAppend(sales: seq<Sale>, s: Sale)
    ensures Revenue(sales + [s]) == Revenue(sales) + s.amountUgx
  {
    assert (sales + [s])[..|sales|] == sales;
  }

  lemma {:induction false} RevenueOfConcat(a: seq<Sale>, b: seq<Sale>)
    ensures Revenue(a + b) == Revenue(a) + Revenue(b)
  {
    if b == [] {
      assert a + b == a;
    } else {
      assert (a + b)[..|a + b| - 1] == a + b[..|b| - 1];
      RevenueOfConcat(a, b[..|b| - 1]);
    }
  }

  lemma OnOfAppend(sales: seq<Sale>, s: Sale, dayKey: int -> string, days: set<string>)
    ensures On(sales + [s], dayKey, days)
            == if dayKey(s.at) in days then On(sales, dayKey, days) + [s] else On(sales, dayKey, days)
  {
    assert (sales + [s])[..|sales|] == sales;
  }

  lemma {:induction false} OnOfConcat(a: seq<Sale>, b: seq<Sale>, dayKey: int -> string, days: set<string>)
    ensures On(a + b, dayKey, days) == On(a, dayKey, days) + On(b, dayKey, days)
  {
    if b == [] {
      assert a + b == a;
    } else {
      assert (a + b)[..|a + b| - 1] == a + b[..|b| - 1];
      OnOfConcat(a, b[..|b| - 1], dayKey, days);
    }
  }

  /** No day reaches beyond `since`. */
  ghost predicate LateEnough(dayKey: int -> string, days: set<string>, since: int) {
    forall t :: dayKey(t) in days ==> t >= since
  }

  lemma {:induction false} PaymentsSinceMissNothing(payments: seq<Payment>, dayKey: int -> string, days: set<string>,
                                                    since: int, earlier: int)
    requires LateEnough(dayKey, days, since) && earlier <= since
    ensures On(PaymentSales(payments, since), dayKey, days) == On(PaymentSales(payments, earlier), dayKey, days)
  {
    if payments != [] {
      var before, p := payments[..|payments| - 1], payments[|payments| - 1];
      PaymentsSinceMissNothing(before, dayKey, days, since, earlier);
      var s := Sale(p.amountUgx, PaidAt(p), p.provider, p.package.id, p.package.name);
      OnOfAppend(PaymentSales(before, since), s, dayKey, days);
      OnOfAppend(PaymentSales(before, earlier), s, dayKey, days);
    }
  }

  lemma {:induction false} VouchersSinceMissNothing(vouchers: seq<Voucher>, dayKey: int -> string, days: set<string>,
                                                    since: int, earlier: int)
    requires LateEnough(dayKey, days, since) && earlier <= since
    ensures On(VoucherSales(vouchers, since), dayKey, days) == On(VoucherSales(vouchers, earlier), dayKey, days)
  {
    if vouchers != [] {
      var before, v := vouchers[..|vouchers| - 1], vouchers[|vouchers| - 1];
      VouchersSinceMissNothing(before, dayKey, days, since, earlier);
      if v.activatedAt.Some? {
        var s := Sale(v.package.priceUgx, v.activatedAt.value, VOUCHER, v.package.id, v.package.name);
        OnOfAppend(VoucherSales(before, since), s, dayKey, days);
        OnOfAppend(VoucherSales(before, earlier), s, dayKey, days);
      }
    }
  }

  /** A window that starts before the days asked for misses none of their sales. */
  lemma SinceMissesNothing(payments: seq<Payment>, vouchers: seq<Voucher>, dayKey: int -> string, days: set<string>,
                           since: int, earlier: int)
    requires LateEnough(dayKey, days, since) && earlier <= since
    ensures On(Sales(payments, vouchers, since), dayKey, days) == On(Sales(payments, vouchers, earlier), dayKey, days)
  {
    PaymentsSinceMissNothing(payments, dayKey, days, since, earlier);
    VouchersSinceMissNothing(vouchers, dayKey, days, since, earlier);
    OnOfConcat(PaymentSales(payments, since), VoucherSales(vouchers, since), dayKey, days);
    OnOfConcat(PaymentSales(payments, earlier), VoucherSales(vouchers, earlier), dayKey, days);
  }

  // ---- The days of the range ----

  function ClampDays(rangeDays: int): (days: nat)
    ensures 7 <= days <= 365
    ensures 7 <= rangeDays <= 365 ==> days == rangeDays
    ensures rangeDays == 0 ==> days == 30
    ensures rangeDays < 7 && rangeDays != 0 ==> days == 7
    ensures rangeDays > 365 ==> days == 365
  {
    var n := if rangeDays == 0 then 30 else rangeDays;
    if n < 7 then 7 else if n > 365 then 365 else n
  }

  /** The keys of the last n days, oldest first. */
  function DayKeys(dayKey: int -> string, now: int, n: nat): (keys: seq<string>)
    ensures |keys| == n && (n > 0 ==> keys[n - 1] == dayKey(now))
  {
    if n == 0 then [] else [dayKey(now - (n - 1) * DAY_MS)] + DayKeys(dayKey, now, n - 1)
  }

  lemma {:induction false} DayKeysSuffix(dayKey: int -> string, now: int, m: nat, n: nat)
    requires m <= n
    ensures DayKeys(dayKey, now, n)[n - m..] == DayKeys(dayKey, now, m)
  {
    if m < n {
      DayKeysSuffix(dayKey, now, m, n - 1);
      assert DayKeys(dayKey, now, n)[n - m..] == DayKeys(dayKey, now, n - 1)[n - 1 - m..];
    }
  }

  lemma {:induction false} DayKeyIn(dayKey: int -> string, now: int, n: nat, k: string)
    ensures k in DayKeys(dayKey, now, n) <==> exists i: nat :: i < n && k == dayKey(now - i * DAY_MS)
  {
    if n > 0 {
      DayKeyIn(dayKey, now, n - 1, k);
      assert DayKeys(dayKey, now, n) == [dayKey(now - (n - 1) * DAY_MS)] + DayKeys(dayKey, now, n - 1);
    }
  }

  function ToSet(keys: seq<string>): set<string> { set k | k in keys }

  lemma WeekIsInRange(dayKey: int -> string, now: int, days: nat)
    requires days >= 7
    ensures dayKey(now) in ToSet(DayKeys(dayKey, now, 7))
            && ToSet(DayKeys(dayKey, now, 7)) <= ToSet(DayKeys(dayKey, now, days))
  {
    var keys, week := DayKeys(dayKey, now, days), DayKeys(dayKey, now, 7);
    DayKeysSuffix(dayKey, now, 7, days);
    assert week[6] == dayKey(now);
    forall k | k in week
      ensures k in keys
    {
      var i :| 0 <= i < 7 && week[i] == k;
      assert keys[days - 7 + i] == k;
    }
  }

  /** No local day is longer than two days of the clock. */
  ghost predicate IsCalendar(dayKey: int -> string) {
    forall a, b :: dayKey(a) == dayKey(b) ==> a - b <= 2 * DAY_MS
  }

  /** The day of padding covers the oldest day of the range in any calendar. */
  lemma PaddingIsEnough(dayKey: int -> string, now: int, days: nat)
    requires IsCalendar(dayKey) && days > 0
    ensures LateEnough(dayKey, ToSet(DayKeys(dayKey, now, days)), now - (days + 1) * DAY_MS)
  {
    forall t | dayKey(t) in ToSet(DayKeys(dayKey, now, days))
      ensures t >= now - (days + 1) * DAY_MS
    {
      DayKeyIn(dayKey, now, days, dayKey(t));
      var i: nat :| i < days && dayKey(t) == dayKey(now - i * DAY_MS);
      assert now - i * DAY_MS - t <= 2 * DAY_MS;
    }
  }

  // ---- Daily buckets ----

  datatype Day = Day(revenueUgx: int, mobileMoneyUgx: int, voucherUgx: int, payments: nat)

  const NO_SALES := Day(0, 0, 0, 0)

  function DayRevenue(d: Day): int { d.revenueUgx }

  function ZeroDays(keys: seq<string>): OMap<string, Day> {
    if keys == [] then [] else Put(ZeroDays(keys[..|keys| - 1]), keys[|keys| - 1], NO_SALES)
  }

  function Bump(d: Day, s: Sale): Day {
    Day(d.revenueUgx + s.amountUgx,
        if s.source == VOUCHER then d.mobileMoneyUgx else d.mobileMoneyUgx + s.amountUgx,
        if s.source == VOUCHER then d.voucherUgx + s.amountUgx else d.voucherUgx,
        d.payments + 1)
  }

  /** A sale of a day outside the range is left out. */
  function AddToDay(m: OMap<string, Day>, k: string, s: Sale): OMap<string, Day> {
    match Find(m, k)
    case None => m
    case Some(d) => Put(m, k, Bump(d, s))
  }

  function DailyOf(zero: OMap<string, Day>, dayKey: int -> string, sales: seq<Sale>): OMap<string, Day> {
    if sales == [] then zero
    else
      var s := sales[|sales| - 1];
      AddToDay(DailyOf(zero, dayKey, sales[..|sales| - 1]), dayKey(s.at), s)
  }

  /** What a day's bucket must hold. */
  function DayOf(sales: seq<Sale>): Day {
    Day(Revenue(sales), Revenue(Vouchers(sales, false)), Revenue(Vouchers(sales, true)), |sales|)
  }

  lemma {:induction false} ZeroDaysAreZero(keys: seq<string>)
    ensures Keys(ZeroDays(keys)) == ToSet(keys) && Column(ZeroDays(keys), DayRevenue) == 0
    ensures forall k :: k in keys ==> Find(ZeroDays(keys), k) == Some(NO_SALES)
  {
    if keys != [] {
      var before, last := keys[..|keys| - 1], keys[|keys| - 1];
      ZeroDaysAreZero(before);
      var zero := ZeroDays(before);
      assert keys == before + [last];
      assert ZeroDays(keys) == Put(zero, last, NO_SALES);
      hide Find, Put, ZeroDays, Column;
      ColumnOfPut(zero, last, NO_SALES, DayRevenue);
      if Find(zero, last).Some? { assert last in before; }
      forall k | k in keys
        ensures Find(Put(zero, last, NO_SALES), k) == Some(NO_SALES)
      {
        if k != last { PutSparesOthers(zero, last, NO_SALES, k); }
      }
    }
  }

  lemma AddToDayEffect(m: OMap<string, Day>, k: string, s: Sale, j: string)
    ensures Keys(AddToDay(m, k, s)) == Keys(m)
    ensures Find(AddToDay(m, k, s), j)
            == if j == k && Find(m, j).Some? then Some(Bump(Find(m, j).value, s)) else Find(m, j)
    ensures Column(AddToDay(m, k, s), DayRevenue) == Column(m, DayRevenue) + if k in Keys(m) then s.amountUgx else 0
  {
    hide Find, Put, Column;
    match Find(m, k)
    case None =>
    case Some(d) =>
      ColumnOfPut(m, k, Bump(d, s), DayRevenue);
      if j != k { PutSparesOthers(m, k, Bump(d, s), j); }
  }

  lemma DayOfAppend(sales: seq<Sale>, s: Sale)
    ensures DayOf(sales + [s]) == Bump(DayOf(sales), s)
  {
    assert (sales + [s])[..|sales|] == sales;
    var v, m := Vouchers(sales, true), Vouchers(sales, false);
    assert Vouchers(sales + [s], true) == if s.source == VOUCHER then v + [s] else v;
    assert Vouchers(sales + [s], false) == if s.source == VOUCHER then m else m + [s];
    RevenueOfAppend(sales, s);
    RevenueOfAppend(v, s);
    RevenueOfAppend(m, s);
  }

  /** Every day of the range holds exactly its sales. */
  lemma {:induction false} DayRow(zero: OMap<string, Day>, dayKey: int -> string, sales: seq<Sale>, k: string)
    requires Find(zero, k) == Some(NO_SALES)
    ensures Find(DailyOf(zero, dayKey, sales), k) == Some(DayOf(On(sales, dayKey, {k})))
  {
    hide Find, AddToDay, Bump, DayOf;
    if sales == [] {
      DayOfNothing();
    } else {
      var before, s := sales[..|sales| - 1], sales[|sales| - 1];
      DayRow(zero, dayKey, before, k);
      AddToDayEffect(DailyOf(zero, dayKey, before), dayKey(s.at), s, k);
      DayOfAppend(On(before, dayKey, {k}), s);
    }
  }

  lemma DayOfNothing()
    ensures DayOf([]) == NO_SALES
  {
  }

  /** The days add up to the sales of all the days together. */
  lemma {:induction false} DaysAddUp(zero: OMap<string, Day>, dayKey: int -> string, sales: seq<Sale>)
    ensures Keys(DailyOf(zero, dayKey, sales)) == Keys(zero)
    ensures Column(DailyOf(zero, dayKey, sales), DayRevenue)
            == Column(zero, DayRevenue) + Revenue(On(sales, dayKey, Keys(zero)))
  {
    if sales != [] {
      hide Find, AddToDay, Column, Keys;
      var before, s := sales[..|sales| - 1], sales[|sales| - 1];
      DaysAddUp(zero, dayKey, before);
      AddToDayEffect(DailyOf(zero, dayKey, before), dayKey(s.at), s, "");
      RevenueOfAppend(On(before, dayKey, Keys(zero)), s);
    }
  }

  lemma {:induction false} MobileAndVoucherAddUp(sales: seq<Sale>)
    ensures Revenue(Vouchers(sales, false)) + Revenue(Vouchers(sales, true)) == Revenue(sales)
  {
    if sales != [] {
      var before, s := sales[..|sales| - 1], sales[|sales| - 1];
      MobileAndVoucherAddUp(before);
      RevenueOfAppend(Vouchers(before, s.source == VOUCHER), s);
    }
  }

  lemma {:induction false} FewerDaysEarnLess(sales: seq<Sale>, dayKey: int -> string, some: set<string>,
                                             all: set<string>)
    requires some <= all && forall s :: s in sales ==> s.amountUgx >= 0
    ensures 0 <= Revenue(On(sales, dayKey, some)) <= Revenue(On(sales, dayKey, all))
  {
    if sales != [] {
      var before, s := sales[..|sales| - 1], sales[|sales| - 1];
      assert s in sales && forall x :: x in before ==> x in sales;
      FewerDaysEarnLess(before, dayKey, some, all);
      RevenueOfAppend(On(before, dayKey, some), s);
      RevenueOfAppend(On(before, dayKey, all), s);
    }
  }

  // ---- The summary ----

  function PackageItem(s: Sale): Item<string, string> { Item(s.packageId, s.packageName, s.amountUgx) }

  function SourceItem(s: Sale): Item<Source, ()> { Item(s.source, (), s.amountUgx) }

  function PackageItems(sales: seq<Sale>): seq<Item<string, string>> {
    seq(|sales|, i requires 0 <= i < |sales| => PackageItem(sales[i]))
  }

  function SourceItems(sales: seq<Sale>): seq<Item<Source, ()>> {
    seq(|sales|, i requires 0 <= i < |sales| => SourceItem(sales[i]))
  }

  lemma {:induction false} ItemsCarryRevenue(sales: seq<Sale>)
    ensures AmountOf(PackageItems(sales)) == Revenue(sales) == AmountOf(SourceItems(sales))
  {
    if sales != [] {
      var before := sales[..|sales| - 1];
      ItemsCarryRevenue(before);
      assert PackageItems(sales)[..|before|] == PackageItems(before);
      assert SourceItems(sales)[..|before|] == SourceItems(before);
    }
  }

  datatype Summary = Summary(
    todayUgx: int, weekUgx: int, rangeUgx: int, rangeCount: nat,
    daily: OMap<string, Day>, byPackage: Tally<string, string>, bySource: Tally<Source, ()>)

  /** What the summary must say about a list of sales and a range of days. */
  function SummaryOf(sales: seq<Sale>, dayKey: int -> string, now: int, days: nat): Summary
    requires days >= 7
  {
    var keys := DayKeys(dayKey, now, days);
    var counted := On(sales, dayKey, ToSet(keys));
    Summary(
      Revenue(On(sales, dayKey, {dayKey(now)})),
      Revenue(On(sales, dayKey, ToSet(DayKeys(dayKey, now, 7)))),
      Revenue(counted), |counted|,
      DailyOf(ZeroDays(keys), dayKey, sales),
      TallyOf(PackageItems(counted)), TallyOf(SourceItems(counted)))
  }

  method MakeKeys(dayKey: int -> string, now: int, days: nat) returns (keys: seq<string>)
    ensures keys == DayKeys(dayKey, now, days)
  {
    keys := [];
    var i: nat := days;
    while i > 0
      invariant i <= days && keys + DayKeys(dayKey, now, i) == DayKeys(dayKey, now, days)
    {
      i := i - 1;
      assert keys + DayKeys(dayKey, now, i + 1) == (keys + [dayKey(now - i * DAY_MS)]) + DayKeys(dayKey, now, i);
      keys := keys + [dayKey(now - i * DAY_MS)];
    }
  }

  lemma CountedOfAppend(counted: seq<Sale>, s: Sale)
    ensures TallyOf(PackageItems(counted + [s])) == Add(TallyOf(PackageItems(counted)), PackageItem(s))
    ensures TallyOf(SourceItems(counted + [s])) == Add(TallyOf(SourceItems(counted)), SourceItem(s))
    ensures Revenue(counted + [s]) == Revenue(counted) + s.amountUgx
  {
    assert PackageItems(counted + [s]) == PackageItems(counted) + [PackageItem(s)];
    assert SourceItems(counted + [s]) == SourceItems(counted) + [SourceItem(s)];
    TallyOfAppend(PackageItems(counted), PackageItem(s));
    TallyOfAppend(SourceItems(counted), SourceItem(s));
    RevenueOfAppend(counted, s);
  }

  /** One more sale, counted in every total. */
  function Counting(r: Summary, s: Sale, key: string, week: set<string>, today: string): Summary {
    match Find(r.daily, key)
    case None => r
    case Some(d) =>
      Summary(
        if key == today then r.todayUgx + s.amountUgx else r.todayUgx,
        if key in week then r.weekUgx + s.amountUgx else r.weekUgx,
        r.rangeUgx + s.amountUgx, r.rangeCount + 1,
        Put(r.daily, key, Bump(d, s)),
        Add(r.byPackage, PackageItem(s)), Add(r.bySource, SourceItem(s)))
  }

  /** `r` is what the specification says of these sales. */
  ghost predicate SoFar(r: Summary, sales: seq<Sale>, zero: OMap<string, Day>, dayKey: int -> string, week: set<string>,
                        today: string) {
    var counted := On(sales, dayKey, Keys(zero));
    r.daily == DailyOf(zero, dayKey, sales) && Keys(r.daily) == Keys(zero)
    && r.rangeUgx == Revenue(counted) && r.rangeCount == |counted|
    && r.todayUgx == Revenue(On(sales, dayKey, {today})) && r.weekUgx == Revenue(On(sales, dayKey, week))
    && r.byPackage == TallyOf(PackageItems(counted)) && r.bySource == TallyOf(SourceItems(counted))
  }

  lemma SoFarNext(r: Summary, sales: seq<Sale>, i: nat, zero: OMap<string, Day>, dayKey: int -> string,
                  week: set<string>, today: string)
    requires i < |sales| && today in week && week <= Keys(zero)
    requires SoFar(r, sales[..i], zero, dayKey, week, today)
    ensures SoFar(Counting(r, sales[i], dayKey(sales[i].at), week, today), sales[..i + 1], zero, dayKey, week, today)
  {
    hide On, DailyOf, TallyOf, PackageItems, SourceItems, Revenue, Add, Find, Put, Bump, Keys;
    OneMore(sales, i, zero, dayKey, Keys(zero), week, today);
    AddToDayEffect(r.daily, dayKey(sales[i].at), sales[i], "");
  }

  method Summarise(sales: seq<Sale>, dayKey: int -> string, now: int, rangeDays: int) returns (r: Summary)
    ensures r == SummaryOf(sales, dayKey, now, ClampDays(rangeDays))
  {
    hide SoFar, On, DailyOf, TallyOf, PackageItems, SourceItems, Revenue, Add, Find, Put, Bump, Keys, ZeroDays, ToSet,
      DayKeys, SummaryOf;
    var days := ClampDays(rangeDays);
    var keys := MakeKeys(dayKey, now, days);
    var daily := ZeroDays(keys);
    var todayKey := keys[|keys| - 1];
    var weekKeys := ToSet(keys[|keys| - 7..]);
    var byPackage: Tally<string, string>, bySource: Tally<Source, ()> := [], [];
    var todayUgx, weekUgx, rangeUgx, rangeCount: nat := 0, 0, 0, 0;
    ghost var zero := daily;
    NothingYet(dayKey, now, days);
    DayKeysSuffix(dayKey, now, 7, days);
    assert sales[..0] == [];
    for i := 0 to |sales|
      invariant SoFar(Summary(todayUgx, weekUgx, rangeUgx, rangeCount, daily, byPackage, bySource), sales[..i], zero,
                      dayKey, weekKeys, todayKey)
    {
      var s := sales[i];
      var key := dayKey(s.at);
      SoFarNext(Summary(todayUgx, weekUgx, rangeUgx, rangeCount, daily, byPackage, bySource), sales, i, zero, dayKey,
                weekKeys, todayKey);
      var bucket := Find(daily, key);
      if bucket == None { continue; }
      daily := Put(daily, key, Bump(bucket.value, s));
      rangeUgx := rangeUgx + s.amountUgx;
      rangeCount := rangeCount + 1;
      if key == todayKey { todayUgx := todayUgx + s.amountUgx; }
      if key in weekKeys { weekUgx := weekUgx + s.amountUgx; }
      byPackage := Add(byPackage, PackageItem(s));
      bySource := Add(bySource, SourceItem(s));
    }
    r := Summary(todayUgx, weekUgx, rangeUgx, rangeCount, daily, byPackage, bySource);
    SoFarIsAll(r, sales, dayKey, now, days);
  }

  lemma SoFarIsAll(r: Summary, sales: seq<Sale>, dayKey: int -> string, now: int, days: nat)
    requires days >= 7
    requires SoFar(r, sales[..|sales|], ZeroDays(DayKeys(dayKey, now, days)), dayKey, ToSet(DayKeys(dayKey, now, 7)),
                   dayKey(now))
    ensures r == SummaryOf(sales, dayKey, now, days)
  {
    ZeroDaysAreZero(DayKeys(dayKey, now, days));
    assert sales[..|sales|] == sales;
  }

  lemma NothingYet(dayKey: int -> string, now: int, days: nat)
    requires days >= 7
    ensures var zero, week := ZeroDays(DayKeys(dayKey, now, days)), ToSet(DayKeys(dayKey, now, 7));
            dayKey(now) in week && week <= Keys(zero)
            && SoFar(Summary(0, 0, 0, 0, zero, [], []), [], zero, dayKey, week, dayKey(now))
  {
    WeekIsInRange(dayKey, now, days);
    ZeroDaysAreZero(DayKeys(dayKey, now, days));
  }

  /** What one more sale does to every part of the specification. */
  lemma OneMore(sales: seq<Sale>, i: nat, zero: OMap<string, Day>, dayKey: int -> string,
                all: set<string>, week: set<string>, today: string)
    requires i < |sales| && today in week && week <= all
    ensures var s, sofar := sales[i], sales[..i];
            var key := dayKey(s.at);
            DailyOf(zero, dayKey, sales[..i + 1]) == AddToDay(DailyOf(zero, dayKey, sofar), key, s)
            && Revenue(On(sales[..i + 1], dayKey, {today}))
               == Revenue(On(sofar, dayKey, {today})) + (if key == today then s.amountUgx else 0)
            && Revenue(On(sales[..i + 1], dayKey, week))
               == Revenue(On(sofar, dayKey, week)) + (if key in week then s.amountUgx else 0)
            && if key in all
               then On(sales[..i + 1], dayKey, all) == On(sofar, dayKey, all) + [s]
                    && TallyOf(PackageItems(On(sales[..i + 1], dayKey, all)))
                       == Add(TallyOf(PackageItems(On(sofar, dayKey, all))), PackageItem(s))
                    && TallyOf(SourceItems(On(sales[..i + 1], dayKey, all)))
                       == Add(TallyOf(SourceItems(On(sofar, dayKey, all))), SourceItem(s))
                    && Revenue(On(sales[..i + 1], dayKey, all)) == Revenue(On(sofar, dayKey, all)) + s.amountUgx
               else On(sales[..i + 1], dayKey, all) == On(sofar, dayKey, all)
  {
    var s, sofar := sales[i], sales[..i];
    assert sales[..i + 1] == sofar + [s] && (sofar + [s])[..i] == sofar;
    assert DailyOf(zero, dayKey, sofar + [s]) == AddToDay(DailyOf(zero, dayKey, sofar), dayKey(s.at), s);
    hide On, DailyOf, TallyOf, PackageItems, SourceItems, Revenue, AddToDay, Add;
    OnOfAppend(sofar, s, dayKey, {today});
    OnOfAppend(sofar, s, dayKey, week);
    OnOfAppend(sofar, s, dayKey, all);
    RevenueOfAppend(On(sofar, dayKey, {today}), s);
    RevenueOfAppend(On(sofar, dayKey, week), s);
    CountedOfAppend(On(sofar, dayKey, all), s);
  }

  // ---- What the summary guarantees ----

  /** The range total is the sum by day, by package and by source. */
  lemma SummaryConserves(sales: seq<Sale>, dayKey: int -> string, now: int, days: nat)
    requires days >= 7
    ensures var r := SummaryOf(sales, dayKey, now, days);
            Column(r.daily, DayRevenue) == Column(r.byPackage, RowAmount) == Column(r.bySource, RowAmount) == r.rangeUgx
  {
    var keys := DayKeys(dayKey, now, days);
    var counted := On(sales, dayKey, ToSet(keys));
    ZeroDaysAreZero(keys);
    DaysAddUp(ZeroDays(keys), dayKey, sales);
    ItemsCarryRevenue(counted);
    RowsAddUp(PackageItems(counted));
    RowsAddUp(SourceItems(counted));
  }

  /** Each day of the range holds its own sales, mobile money and vouchers adding up to its revenue. */
  lemma SummaryDay(sales: seq<Sale>, dayKey: int -> string, now: int, days: nat, k: string)
    requires days >= 7 && k in DayKeys(dayKey, now, days)
    ensures var found := Find(SummaryOf(sales, dayKey, now, days).daily, k);
            found == Some(DayOf(On(sales, dayKey, {k})))
            && found.value.revenueUgx == found.value.mobileMoneyUgx + found.value.voucherUgx
  {
    ZeroDaysAreZero(DayKeys(dayKey, now, days));
    DayRow(ZeroDays(DayKeys(dayKey, now, days)), dayKey, sales, k);
    MobileAndVoucherAddUp(On(sales, dayKey, {k}));
  }

  /** Today is part of the week, and the week of the range. */
  lemma SummaryNests(sales: seq<Sale>, dayKey: int -> string, now: int, days: nat)
    requires days >= 7 && forall s :: s in sales ==> s.amountUgx >= 0
    ensures var r := SummaryOf(sales, dayKey, now, days); 0 <= r.todayUgx <= r.weekUgx <= r.rangeUgx
  {
    var keys, week := DayKeys(dayKey, now, days), DayKeys(dayKey, now, 7);
    WeekIsInRange(dayKey, now, days);
    FewerDaysEarnLess(sales, dayKey, {dayKey(now)}, ToSet(week));
    FewerDaysEarnLess(sales, dayKey, ToSet(week), ToSet(keys));
  }

  /** The overview tile and the summary, reading different windows, name the same takings for today. */
  lemma TileAgreesWithSummary(payments: seq<Payment>, vouchers: seq<Voucher>, dayKey: int -> string, now: int,
                              rangeDays: int)
    requires IsCalendar(dayKey)
    ensures var days := ClampDays(rangeDays);
            Revenue(On(Sales(payments, vouchers, now - 2 * DAY_MS), dayKey, {dayKey(now)}))
            == SummaryOf(Sales(payments, vouchers, now - (days + 1) * DAY_MS), dayKey, now, days).todayUgx
  {
    var days := ClampDays(rangeDays);
    SinceMissesNothing(payments, vouchers, dayKey, {dayKey(now)}, now - 2 * DAY_MS, now - (days + 1) * DAY_MS);
  }

  /**
   * The summary counts every successful payment and every redeemed printed voucher of its days,
   * however old the books.
   */
  lemma SummaryMissesNothing(payments: seq<Payment>, vouchers: seq<Voucher>, dayKey: int -> string, now: int, days: nat,
                             earlier: int)
    requires IsCalendar(dayKey) && days >= 7 && earlier <= now - (days + 1) * DAY_MS
    ensures SummaryOf(Sales(payments, vouchers, now - (days + 1) * DAY_MS), dayKey, now, days).rangeUgx
            == Revenue(On(Sales(payments, vouchers, earlier), dayKey, ToSet(DayKeys(dayKey, now, days))))
  {
    hide On, DailyOf, TallyOf, DayKeys, ToSet, Revenue, Sales, IsCalendar, LateEnough;
    PaddingIsEnough(dayKey, now, days);
    SinceMissesNothing(payments, vouchers, dayKey, ToSet(DayKeys(dayKey, now, days)), now - (days + 1) * DAY_MS,
                       earlier);
  }
}

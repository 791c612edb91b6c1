/**
 * Attribution of billed bytes to apps. Byte counts are reals, because a share of a
 * billed count is rarely whole.
 */
module Usage {
  import opened Options
  import opened OrderedMaps

  type App = string
  type Mac = string

  const UNATTRIBUTED: App := "Other"
  const HISTORY_POINTS := 120

  datatype Counter = Counter(down: real, up: real)

  datatype Direction = Down | Up

  type Apps = OMap<App, Counter>

  const NONE := Counter(0.0, 0.0)

  function Part(c: Counter, dir: Direction): real { if dir == Down then c.down else c.up }

  function Plus(a: Counter, b: Counter): Counter { Counter(a.down + b.down, a.up + b.up) }

  function Only(dir: Direction, v: real): Counter { if dir == Down then Counter(v, 0.0) else Counter(0.0, v) }

  function Times(a: real, b: real): real { a * b }

  function Ratio(a: real, b: real): real
    requires b != 0.0
  {
    a / b
  }

  /** JavaScript's rounding: halves go up. */
  function Round(x: real): (n: int)
    ensures x - 0.5 < n as real <= x + 0.5
  {
    (x + 0.5).Floor
  }

  function Less(a: real, b: real): real { if a <= b then a else b }

  /** All bytes of a direction. */
  function Total(m: Apps, dir: Direction): real {
    if m == [] then 0.0 else Part(m[0].1, dir) + Total(m[1..], dir)
  }

  /** The bytes of one app. */
  function OfApp(m: Apps, app: App, dir: Direction): real {
    if m == [] then 0.0 else (if m[0].0 == app then Part(m[0].1, dir) else 0.0) + OfApp(m[1..], app, dir)
  }

  function Add(m: Apps, app: App, c: Counter): Apps {
    Put(m, app, Plus(match Find(m, app) case None => NONE case Some(was) => was, c))
  }

  lemma {:induction false} AfterPut(m: Apps, app: App, c: Counter, dir: Direction, other: App)
    ensures Total(Put(m, app, c), dir)
            == Total(m, dir) + Part(c, dir) - (match Find(m, app) case None => 0.0 case Some(was) => Part(was, dir))
    ensures OfApp(Put(m, app, c), other, dir) ==
            OfApp(m, other, dir)
            + if other == app then Part(c, dir) - (match Find(m, app) case None => 0.0 case Some(was) => Part(was, dir))
              else 0.0
  {
    if m != [] {
      if m[0].0 == app {
        assert ([(app, c)] + m[1..])[1..] == m[1..];
      } else {
        AfterPut(m[1..], app, c, dir, other);
        assert ([m[0]] + Put(m[1..], app, c))[1..] == Put(m[1..], app, c);
      }
    }
  }

  lemma AfterAdd(m: Apps, app: App, c: Counter, dir: Direction, other: App)
    ensures Total(Add(m, app, c), dir) == Total(m, dir) + Part(c, dir)
    ensures OfApp(Add(m, app, c), other, dir) == OfApp(m, other, dir) + if other == app then Part(c, dir) else 0.0
  {
    AfterPut(m, app, Plus(match Find(m, app) case None => NONE case Some(was) => was, c), dir, other);
  }

  // ---- The split ----

  function Scale(billed: Counter, seen: Apps, dir: Direction): real {
    var attributed := Total(seen, dir);
    if attributed > Part(billed, dir) && attributed > 0.0 then Ratio(Part(billed, dir), attributed) else 1.0
  }

  function Rest(billed: Counter, seen: Apps, dir: Direction): real {
    Part(billed, dir) - Less(Total(seen, dir), Part(billed, dir))
  }

  function AddShares(result: Apps, seen: Apps, dir: Direction, scale: real): Apps
    decreases |seen|
  {
    if seen == [] then result
    else
      var v := Times(Part(seen[0].1, dir), scale);
      AddShares(if v > 0.0 then Add(result, seen[0].0, Only(dir, v)) else result, seen[1..], dir, scale)
  }

  function SplitDirection(result: Apps, billed: Counter, seen: Apps, dir: Direction): Apps {
    var shared := AddShares(result, seen, dir, Scale(billed, seen, dir));
    var rest := Rest(billed, seen, dir);
    if rest > 0.0 then Add(shared, UNATTRIBUTED, Only(dir, rest)) else shared
  }

  function Split(billed: Counter, seen: Apps): Apps {
    SplitDirection(SplitDirection([], billed, seen, Down), billed, seen, Up)
  }

  method SplitAcrossApps(billed: Counter, seen: Apps) returns (result: Apps)
    ensures result == Split(billed, seen)
  {
    result := [];
    var dirs := [Down, Up];
    var k := 0;
    while k < 2
      invariant 0 <= k <= 2
      invariant result == if k == 0 then [] else if k == 1 then SplitDirection([], billed, seen, Down)
                          else Split(billed, seen)
    {
      result := SplitOneDirection(result, billed, seen, dirs[k]);
      k := k + 1;
    }
  }

  method SplitOneDirection(start: Apps, billed: Counter, seen: Apps, dir: Direction) returns (result: Apps)
    ensures result == SplitDirection(start, billed, seen, dir)
  {
    hide Times, Ratio;
    var attributed := SumOf(seen, dir);
    var scale := if attributed > Part(billed, dir) && attributed > 0.0 then Ratio(Part(billed, dir), attributed)
                 else 1.0;
    result := start;
    var i := 0;
    while i < |seen|
      invariant i <= |seen| && AddShares(result, seen[i..], dir, scale) == AddShares(start, seen, dir, scale)
    {
      assert seen[i..][1..] == seen[i + 1..] && seen[i..][0] == seen[i];
      var v := Times(Part(seen[i].1, dir), scale);
      if v > 0.0 { result := Add(result, seen[i].0, if dir == Down then Counter(v, 0.0) else Counter(0.0, v)); }
      i := i + 1;
    }
    var rest := Part(billed, dir) - Less(attributed, Part(billed, dir));
    if rest > 0.0 {
      result := Add(result, UNATTRIBUTED, if dir == Down then Counter(rest, 0.0) else Counter(0.0, rest));
    }
  }

  method SumOf(seen: Apps, dir: Direction) returns (sum: real)
    ensures sum == Total(seen, dir)
  {
    sum := 0.0;
    var i := 0;
    while i < |seen|
      invariant i <= |seen| && sum + Total(seen[i..], dir) == Total(seen, dir)
    {
      assert seen[i..][1..] == seen[i + 1..];
      sum := sum + Part(seen[i].1, dir);
      i := i + 1;
    }
  }

  ghost predicate Nonnegative(m: Apps) {
    forall i :: 0 <= i < |m| ==> m[i].1.down >= 0.0 && m[i].1.up >= 0.0
  }

  lemma {:induction false} PartsWithinTotal(m: Apps, app: App, dir: Direction)
    requires Nonnegative(m)
    ensures 0.0 <= OfApp(m, app, dir) <= Total(m, dir)
  {
    if m != [] { PartsWithinTotal(m[1..], app, dir); }
  }

  lemma {:induction false} SharesAdd(result: Apps, seen: Apps, dir: Direction, scale: real, d: Direction, app: App)
    requires Nonnegative(seen) && scale >= 0.0
    ensures Total(AddShares(result, seen, dir, scale), d)
            == Total(result, d) + if d == dir then Times(Total(seen, dir), scale) else 0.0
    ensures OfApp(AddShares(result, seen, dir, scale), app, d) ==
            OfApp(result, app, d) + if d == dir then Times(OfApp(seen, app, dir), scale) else 0.0
    decreases |seen|
  {
    hide Times, Add;
    TimesLaws(0.0, 0.0, scale);
    if seen != [] {
      var part := Part(seen[0].1, dir);
      var v := Times(part, scale);
      var next := if v > 0.0 then Add(result, seen[0].0, Only(dir, v)) else result;
      TimesLaws(part, Total(seen[1..], dir), scale);
      TimesLaws(part, OfApp(seen[1..], app, dir), scale);
      AfterAdd(result, seen[0].0, Only(dir, v), d, app);
      SharesAdd(next, seen[1..], dir, scale, d, app);
    }
  }

  lemma TimesLaws(a: real, b: real, scale: real)
    ensures Times(a + b, scale) == Times(a, scale) + Times(b, scale)
    ensures Times(0.0, scale) == 0.0
    ensures a >= 0.0 && scale >= 0.0 ==> Times(a, scale) >= 0.0
  {
  }

  /** What one direction of the split gives an app. */
  function ShareOf(billed: Counter, seen: Apps, dir: Direction, app: App): real {
    Times(OfApp(seen, app, dir), Scale(billed, seen, dir))
    + if app == UNATTRIBUTED then Rest(billed, seen, dir) else 0.0
  }

  lemma DirectionAdds(result: Apps, billed: Counter, seen: Apps, dir: Direction, d: Direction, app: App)
    requires Nonnegative(seen) && Part(billed, dir) >= 0.0
    ensures Total(SplitDirection(result, billed, seen, dir), d)
            == Total(result, d) + if d == dir then Part(billed, dir) else 0.0
    ensures OfApp(SplitDirection(result, billed, seen, dir), app, d)
            == OfApp(result, app, d) + if d == dir then ShareOf(billed, seen, dir, app) else 0.0
  {
    hide Times, Ratio;
    PartsWithinTotal(seen, app, dir);
    ScaledShare(OfApp(seen, app, dir), Total(seen, dir), Part(billed, dir));
    SharesAdd(result, seen, dir, Scale(billed, seen, dir), d, app);
    AfterAdd(AddShares(result, seen, dir, Scale(billed, seen, dir)), UNATTRIBUTED, Only(dir, Rest(billed, seen, dir)),
             d, app);
  }

  /**
   * The split adds up to exactly what was billed, in each direction; every app gets its
   * share of what was seen and never more, and "Other" also gets what nobody saw.
   */
  lemma SplitConserves(billed: Counter, seen: Apps, dir: Direction, app: App)
    requires Nonnegative(seen) && billed.down >= 0.0 && billed.up >= 0.0
    ensures Total(Split(billed, seen), dir) == Part(billed, dir)
    ensures 0.0 <= OfApp(Split(billed, seen), app, dir) <= Part(billed, dir)
    ensures app != UNATTRIBUTED ==>
              OfApp(Split(billed, seen), app, dir) <= OfApp(seen, app, dir)
              && Times(OfApp(Split(billed, seen), app, dir), Total(seen, dir))
                 == Times(OfApp(seen, app, dir), Less(Total(seen, dir), Part(billed, dir)))
    ensures app == UNATTRIBUTED ==>
              OfApp(Split(billed, seen), app, dir) >= Part(billed, dir) - Less(Total(seen, dir), Part(billed, dir))
  {
    hide Times, Ratio;
    DirectionAdds([], billed, seen, Down, dir, app);
    DirectionAdds(SplitDirection([], billed, seen, Down), billed, seen, Up, dir, app);
    PartsWithinTotal(seen, app, dir);
    ScaledShare(OfApp(seen, app, dir), Total(seen, dir), Part(billed, dir));
  }

  /** The scale turns what was seen into at most what was billed, in proportion. */
  lemma ScaledShare(part: real, total: real, billed: real)
    requires 0.0 <= part <= total && billed >= 0.0
    ensures var scale := if total > billed && total > 0.0 then Ratio(billed, total) else 1.0;
            scale >= 0.0
            && Times(total, scale) == Less(total, billed)
            && 0.0 <= Times(part, scale) <= part && Times(part, scale) <= Less(total, billed)
            && Times(Times(part, scale), total) == Times(part, Less(total, billed))
  {
    if total > billed && total > 0.0 {
      var scale := billed / total;
      ScaledByRatio(part, total, billed, scale);
    }
  }

  lemma FactorBounds(scale: real, total: real, billed: real)
    requires 0.0 <= billed < total && scale * total == billed
    ensures 0.0 <= scale <= 1.0
  {
    assert scale == billed / total;
  }

  lemma ScaledByRatio(part: real, total: real, billed: real, scale: real)
    requires 0.0 <= part <= total && 0.0 <= billed < total && scale * total == billed
    ensures 0.0 <= scale <= 1.0
    ensures 0.0 <= part * scale <= part && part * scale <= billed && part * scale * total == part * billed
  {
    FactorBounds(scale, total, billed);
    assert part * (1.0 - scale) >= 0.0;
    assert (total - part) * scale >= 0.0;
    assert part * scale * total == part * (scale * total);
  }

  // ---- Ticks ----

  datatype RatePoint = RatePoint(down: real, up: real)

  /** What the agent keeps for a device while it is admitted. */
  datatype DeviceUsage = DeviceUsage(
    history: seq<RatePoint>,
    appTotals: Apps,
    pendingApps: Apps,
    total: Counter)

  const NEW_DEVICE := DeviceUsage([], [], [], NONE)

  /**
   * The last three maps are a ledger of bytes by MAC and app: billed by any tick, handed
   * to a traffic report, and forgotten while still pending because the device left.
   */
  datatype Collector = Collector(
    devices: map<Mac, DeviceUsage>,
    lastTc: map<Mac, Counter>,
    networkHistory: seq<RatePoint>,
    billed: map<Mac, Apps>,
    drained: map<Mac, Apps>,
    lost: map<Mac, Apps>)

  const IDLE := Collector(map[], map[], [], map[], map[], map[])

  function Push(history: seq<RatePoint>, p: RatePoint): seq<RatePoint> {
    if |history| + 1 > HISTORY_POINTS then (history + [p])[1..] else history + [p]
  }

  /** What a class counter gained since the last tick; a restarted counter is a new baseline. */
  function Gained(prev: Option<Counter>, cur: Counter): Counter {
    Counter(if prev.Some? && cur.down >= prev.value.down then cur.down - prev.value.down else 0.0,
            if prev.Some? && cur.up >= prev.value.up then cur.up - prev.value.up else 0.0)
  }

  function Get<V>(m: map<Mac, V>, mac: Mac): Option<V> { if mac in m then Some(m[mac]) else None }

  function Reading(counters: map<Mac, Counter>, mac: Mac): Counter { if mac in counters then counters[mac] else NONE }

  function BilledTo(u: Collector, admitted: seq<Mac>, counters: map<Mac, Counter>, mac: Mac): Counter {
    Gained(if mac in admitted then Get(u.lastTc, mac) else None, Reading(counters, mac))
  }

  function AddAll(m: Apps, apps: Apps): Apps
    decreases |apps|
  {
    if apps == [] then m else AddAll(Add(m, apps[0].0, apps[0].1), apps[1..])
  }

  function Rate(c: Counter, seconds: real): RatePoint
    requires seconds > 0.0
  {
    RatePoint(Ratio(c.down, seconds), Ratio(c.up, seconds))
  }

  function Charge(d: DeviceUsage, billed: Counter, seen: Apps, seconds: real): DeviceUsage
    requires seconds > 0.0
  {
    var apps := Split(billed, seen);
    d.(appTotals := AddAll(d.appTotals, apps),
       pendingApps := AddAll(d.pendingApps, apps),
       total := Plus(d.total, billed),
       history := Push(d.history, Rate(billed, seconds)))
  }

  /** What is kept for a device; one not known before starts from nothing. */
  function Known(devices: map<Mac, DeviceUsage>, mac: Mac): DeviceUsage {
    if mac in devices then devices[mac] else NEW_DEVICE
  }

  function Seen(seen: map<Mac, Apps>, mac: Mac): Apps { if mac in seen then seen[mac] else [] }

  function Of(ledger: map<Mac, Apps>, mac: Mac): Apps { if mac in ledger then ledger[mac] else [] }

  /** What a tick adds to the ledger of billed bytes. */
  function BilledAfter(u: Collector, admitted: seq<Mac>, counters: map<Mac, Counter>,
                       seen: map<Mac, Apps>): map<Mac, Apps> {
    map mac | mac in u.billed.Keys + (set m | m in admitted) ::
      if mac in admitted
      then AddAll(Of(u.billed, mac), Split(BilledTo(u, admitted, counters, mac), Seen(seen, mac)))
      else Of(u.billed, mac)
  }

  /** What a tick adds to the ledger of forgotten bytes: whatever a device that left had pending. */
  function LostAfter(u: Collector, admitted: seq<Mac>): map<Mac, Apps> {
    map mac | mac in u.lost.Keys + u.devices.Keys ::
      if mac in u.devices && mac !in admitted then AddAll(Of(u.lost, mac), u.devices[mac].pendingApps)
      else Of(u.lost, mac)
  }

  function SumBilled(u: Collector, admitted: seq<Mac>, counters: map<Mac, Counter>, n: nat): Counter
    requires n <= |admitted|
  {
    if n == 0 then NONE
    else Plus(SumBilled(u, admitted, counters, n - 1), BilledTo(u, admitted, counters, admitted[n - 1]))
  }

  /** One tick: `counters` are the class counters read, `seen` what connection tracking saw since the last tick. */
  function Tick(u: Collector, admitted: seq<Mac>, counters: map<Mac, Counter>, seen: map<Mac, Apps>,
                seconds: real): Collector
    requires seconds > 0.0
  {
    Collector(
      map mac | mac in admitted ::
        Charge(Known(u.devices, mac), BilledTo(u, admitted, counters, mac), Seen(seen, mac), seconds),
      map mac | mac in admitted :: Reading(counters, mac),
      Push(u.networkHistory, Rate(SumBilled(u, admitted, counters, |admitted|), seconds)),
      BilledAfter(u, admitted, counters, seen), u.drained, LostAfter(u, admitted))
  }

  function Drain(u: Collector, mac: Mac): Collector {
    if mac !in u.devices then u
    else
      var d := u.devices[mac];
      u.(devices := u.devices[mac := d.(pendingApps := [])],
         drained := u.drained[mac := AddAll(Of(u.drained, mac), d.pendingApps)])
  }

  function SumOver(macs: seq<Mac>, billed: map<Mac, Counter>): Counter
    requires forall mac :: mac in macs ==> mac in billed
  {
    if macs == [] then NONE else Plus(SumOver(macs[..|macs| - 1], billed), billed[macs[|macs| - 1]])
  }

  lemma {:induction false} SumOverBilled(u: Collector, admitted: seq<Mac>, counters: map<Mac, Counter>,
                                         billed: map<Mac, Counter>, n: nat)
    requires n <= |admitted|
    requires forall mac :: mac in admitted ==> mac in billed && billed[mac] == BilledTo(u, admitted, counters, mac)
    ensures SumOver(admitted[..n], billed) == SumBilled(u, admitted, counters, n)
  {
    if n > 0 {
      SumOverBilled(u, admitted, counters, billed, n - 1);
      assert admitted[..n][..n - 1] == admitted[..n - 1];
    }
  }

  class UsageCollector {
    var devices: map<Mac, DeviceUsage>
    var lastTc: map<Mac, Counter>
    var networkHistory: seq<RatePoint>
    ghost var billed: map<Mac, Apps>
    ghost var drained: map<Mac, Apps>
    ghost var lost: map<Mac, Apps>

    constructor ()
      ensures Data() == IDLE
    {
      devices, lastTc, networkHistory := map[], map[], [];
      billed, drained, lost := map[], map[], map[];
    }

    ghost function Data(): Collector
      reads this
    {
      Collector(devices, lastTc, networkHistory, billed, drained, lost)
    }

    /** First half of a tick: forgets devices that left, and bills what each class counter gained. */
    method BillAll(admitted: seq<Mac>, counters: map<Mac, Counter>) returns (gains: map<Mac, Counter>)
      requires forall i, j :: 0 <= i < j < |admitted| ==> admitted[i] != admitted[j]
      modifies this`devices, this`lastTc
      ensures devices == map mac | mac in old(devices) && mac in admitted :: old(devices)[mac]
      ensures lastTc == map mac | mac in admitted :: Reading(counters, mac)
      ensures forall mac ::
                mac in admitted ==> mac in gains && gains[mac] == BilledTo(old(Data()), admitted, counters, mac)
    {
      hide Gained, Reading;
      ghost var was := lastTc;
      devices := map mac | mac in devices && mac in admitted :: devices[mac];
      lastTc := map mac | mac in lastTc && mac in admitted :: lastTc[mac];
      gains := BillEach(admitted, counters);
      forall mac | mac in admitted
        ensures mac in gains && gains[mac] == Gained(Get(was, mac), Reading(counters, mac))
        ensures mac in lastTc && lastTc[mac] == Reading(counters, mac)
      {
        var k :| 0 <= k < |admitted| && admitted[k] == mac;
      }
    }

    method BillEach(admitted: seq<Mac>, counters: map<Mac, Counter>) returns (gains: map<Mac, Counter>)
      requires forall i, j :: 0 <= i < j < |admitted| ==> admitted[i] != admitted[j]
      requires forall mac :: mac in lastTc ==> mac in admitted
      modifies this`lastTc
      ensures forall k :: 0 <= k < |admitted| ==> admitted[k] in gains
      ensures forall k ::
                0 <= k < |admitted| ==>
                  gains[admitted[k]] == Gained(Get(old(lastTc), admitted[k]), Reading(counters, admitted[k]))
      ensures forall k ::
                0 <= k < |admitted| ==> admitted[k] in lastTc && lastTc[admitted[k]] == Reading(counters, admitted[k])
      ensures forall mac :: mac in lastTc ==> mac in admitted
    {
      hide Gained, Reading;
      gains := map[];
      var i := 0;
      while i < |admitted|
        invariant i <= |admitted|
        invariant forall k :: 0 <= k < i ==> admitted[k] in gains
        invariant forall k ::
                    0 <= k < i ==>
                      gains[admitted[k]] == Gained(Get(old(lastTc), admitted[k]), Reading(counters, admitted[k]))
        invariant forall k ::
                    0 <= k < i ==> admitted[k] in lastTc && lastTc[admitted[k]] == Reading(counters, admitted[k])
        invariant forall k :: i <= k < |admitted| ==> Get(lastTc, admitted[k]) == Get(old(lastTc), admitted[k])
        invariant forall mac :: mac in lastTc ==> mac in admitted
      {
        var mac := admitted[i];
        var cur := Reading(counters, mac);
        gains := gains[mac := Gained(Get(lastTc, mac), cur)];
        lastTc := lastTc[mac := cur];
        i := i + 1;
      }
    }

    /** Charges one device with what its class counter gained, split across the apps seen. */
    method ChargeOne(mac: Mac, b: Counter, seen: Apps, seconds: real)
      requires seconds > 0.0
      modifies this`devices
      ensures devices == old(devices)[mac := Charge(Known(old(devices), mac), b, seen, seconds)]
    {
      hide Split, Push, Plus, AddAll, Ratio;
      var d := if mac in devices then devices[mac] else NEW_DEVICE;
      var apps := SplitAcrossApps(b, seen);
      var point := RatePoint(Ratio(b.down, seconds), Ratio(b.up, seconds));
      devices := devices[mac := d.(appTotals := AddAll(d.appTotals, apps), pendingApps := AddAll(d.pendingApps, apps),
                                   total := Plus(d.total, b), history := Push(d.history, point))];
    }

    /** Second half: charges every device, and adds up the network. */
    method ChargeAll(admitted: seq<Mac>, gains: map<Mac, Counter>, seen: map<Mac, Apps>, seconds: real)
      returns (net: Counter)
      requires seconds > 0.0 && forall i, j :: 0 <= i < j < |admitted| ==> admitted[i] != admitted[j]
      requires forall mac :: mac in admitted ==> mac in gains
      requires forall mac :: mac in devices ==> mac in admitted
      modifies this`devices
      ensures devices
              == map mac | mac in admitted :: Charge(Known(old(devices), mac), gains[mac], Seen(seen, mac), seconds)
      ensures net == SumOver(admitted, gains)
    {
      hide Charge, Plus, Seen;
      ghost var was := devices;
      net := NONE;
      var i := 0;
      while i < |admitted|
        invariant i <= |admitted| && net == SumOver(admitted[..i], gains)
        invariant forall k :: 0 <= k < i ==> admitted[k] in devices
        invariant forall k ::
                    0 <= k < i ==>
                      devices[admitted[k]]
                      == Charge(Known(was, admitted[k]), gains[admitted[k]], Seen(seen, admitted[k]), seconds)
        invariant forall k :: i <= k < |admitted| ==> Known(devices, admitted[k]) == Known(was, admitted[k])
        invariant forall mac :: mac in devices ==> mac in admitted
      {
        ChargeOne(admitted[i], gains[admitted[i]], Seen(seen, admitted[i]), seconds);
        net := Plus(net, gains[admitted[i]]);
        assert admitted[..i + 1][..i] == admitted[..i];
        i := i + 1;
      }
      assert admitted[..i] == admitted;
      assert devices.Keys == set mac | mac in admitted;
    }

    method RunTick(admitted: seq<Mac>, counters: map<Mac, Counter>, seen: map<Mac, Apps>, seconds: real)
      requires seconds > 0.0 && forall i, j :: 0 <= i < j < |admitted| ==> admitted[i] != admitted[j]
      modifies this
      ensures Data() == Tick(old(Data()), admitted, counters, seen, seconds)
    {
      hide Charge, BilledTo, Reading, Push, Ratio, SumOver, SumBilled, Seen, BilledAfter, LostAfter;
      ghost var was := Data();
      var gains := BillAll(admitted, counters);
      var net := ChargeAll(admitted, gains, seen, seconds);
      SumOverBilled(was, admitted, counters, gains, |admitted|);
      assert admitted[..|admitted|] == admitted;
      assert devices == Tick(was, admitted, counters, seen, seconds).devices;
      networkHistory := Push(networkHistory, RatePoint(Ratio(net.down, seconds), Ratio(net.up, seconds)));
      billed, lost := BilledAfter(was, admitted, counters, seen), LostAfter(was, admitted);
    }

    /** Hands over the pending bytes, each count rounded. */
    method DrainAppUsage(mac: Mac) returns (apps: seq<(App, int, int)>)
      modifies this
      ensures Data() == Drain(old(Data()), mac)
      ensures var pending := if mac in old(devices) then old(devices)[mac].pendingApps else [];
              |apps| == |pending|
              && forall i :: 0 <= i < |apps| ==>
                   apps[i] == (pending[i].0, Round(pending[i].1.down), Round(pending[i].1.up))
    {
      if mac !in devices { return []; }
      var d := devices[mac];
      var pending := d.pendingApps;
      apps := seq(|pending|, i requires 0 <= i < |pending| =>
        (pending[i].0, Round(pending[i].1.down), Round(pending[i].1.up)));
      devices := devices[mac := d.(pendingApps := [])];
      drained := drained[mac := AddAll(Of(drained, mac), pending)];
    }
  }

  // ---- What every run of ticks and drains keeps ----

  lemma {:induction false} AddAllAdds(m: Apps, apps: Apps, dir: Direction, app: App)
    decreases |apps|
    ensures Total(AddAll(m, apps), dir) == Total(m, dir) + Total(apps, dir)
    ensures OfApp(AddAll(m, apps), app, dir) == OfApp(m, app, dir) + OfApp(apps, app, dir)
  {
    if apps != [] {
      AfterAdd(m, apps[0].0, apps[0].1, dir, app);
      AddAllAdds(Add(m, apps[0].0, apps[0].1), apps[1..], dir, app);
    }
  }

  /** What the class counter of a device gained in one direction since the last tick, zero for a new baseline. */
  function Growth(u: Collector, counters: map<Mac, Counter>, mac: Mac, dir: Direction): real {
    var now := if mac in counters then Part(counters[mac], dir) else 0.0;
    if mac in u.lastTc && now >= Part(u.lastTc[mac], dir) then now - Part(u.lastTc[mac], dir) else 0.0
  }

  lemma BilledIs(u: Collector, admitted: seq<Mac>, counters: map<Mac, Counter>, mac: Mac, dir: Direction)
    requires mac in admitted
    ensures Part(BilledTo(u, admitted, counters, mac), dir) == Growth(u, counters, mac, dir) >= 0.0
  {
  }

  lemma RateIs(c: Counter, seconds: real, dir: Direction)
    requires seconds > 0.0
    ensures Times(RatePart(Rate(c, seconds), dir), seconds) == Part(c, dir)
  {
  }

  function RatePart(p: RatePoint, dir: Direction): real { if dir == Down then p.down else p.up }

  /**
   * A tick keeps exactly the admitted devices. Each is billed what its class counter gained:
   * that is added to its total and, with the apps' shares, to its totals by app and to what
   * is pending; its newest history point is the rate; and its counter is the new baseline.
   */
  lemma TickDoes(u: Collector, admitted: seq<Mac>, counters: map<Mac, Counter>, seen: map<Mac, Apps>, seconds: real,
                 mac: Mac, dir: Direction, app: App)
    requires seconds > 0.0 && (mac in seen ==> Nonnegative(seen[mac]))
    ensures var u' := Tick(u, admitted, counters, seen, seconds);
            (mac in u'.devices <==> mac in admitted) && (mac in u'.lastTc <==> mac in admitted)
            && u'.drained == u.drained
            && (mac in admitted ==>
                  var a := if mac in u.devices then u.devices[mac] else DeviceUsage([], [], [], Counter(0.0, 0.0));
                  var b, grown := u'.devices[mac], Growth(u, counters, mac, dir);
                  u'.lastTc[mac] == (if mac in counters then counters[mac] else Counter(0.0, 0.0))
                  && Part(b.total, dir) == Part(a.total, dir) + grown
                  && Total(b.appTotals, dir) == Total(a.appTotals, dir) + grown
                  && Total(b.pendingApps, dir) == Total(a.pendingApps, dir) + grown
                  && OfApp(b.appTotals, app, dir) - OfApp(a.appTotals, app, dir)
                     == OfApp(b.pendingApps, app, dir) - OfApp(a.pendingApps, app, dir)
                  && b.history != [] && Times(RatePart(b.history[|b.history| - 1], dir), seconds) == grown
                  && |b.history| == (if |a.history| < 120 then |a.history| + 1 else |a.history|)
                  && b.history[..|b.history| - 1] == a.history[|a.history| + 1 - |b.history|..])
  {
    hide *;
    TickKeeps(u, admitted, counters, seen, seconds, mac);
    if mac in admitted {
      BilledIs(u, admitted, counters, mac, Down);
      BilledIs(u, admitted, counters, mac, Up);
      BilledIs(u, admitted, counters, mac, dir);
      var billed := BilledTo(u, admitted, counters, mac);
      PartIs(billed);
      NoneSeen(seen, mac);
      ChargeDoes(Known(u.devices, mac), billed, Seen(seen, mac), seconds, dir, app);
    }
  }

  lemma PartIs(c: Counter)
    ensures Part(c, Down) == c.down && Part(c, Up) == c.up
  {
  }

  lemma NoneSeen(seen: map<Mac, Apps>, mac: Mac)
    requires mac in seen ==> Nonnegative(seen[mac])
    ensures Nonnegative(Seen(seen, mac))
  {
  }

  lemma TickKeeps(u: Collector, admitted: seq<Mac>, counters: map<Mac, Counter>, seen: map<Mac, Apps>, seconds: real,
                  mac: Mac)
    requires seconds > 0.0
    ensures var u' := Tick(u, admitted, counters, seen, seconds);
            (mac in u'.devices <==> mac in admitted) && (mac in u'.lastTc <==> mac in admitted)
            && u'.drained == u.drained
            && Known(u.devices, mac)
               == (if mac in u.devices then u.devices[mac] else DeviceUsage([], [], [], Counter(0.0, 0.0)))
            && (mac in admitted ==>
                  u'.devices[mac]
                  == Charge(Known(u.devices, mac), BilledTo(u, admitted, counters, mac), Seen(seen, mac), seconds)
                  && u'.lastTc[mac] == (if mac in counters then counters[mac] else Counter(0.0, 0.0)))
  {
    hide Charge, BilledTo, BilledAfter, LostAfter, Push, Rate, SumBilled, Seen;
  }

  lemma ChargeDoes(a: DeviceUsage, billed: Counter, seen: Apps, seconds: real, dir: Direction, app: App)
    requires seconds > 0.0 && Nonnegative(seen) && billed.down >= 0.0 && billed.up >= 0.0
    ensures var b := Charge(a, billed, seen, seconds);
            Part(b.total, dir) == Part(a.total, dir) + Part(billed, dir)
            && Total(b.appTotals, dir) == Total(a.appTotals, dir) + Part(billed, dir)
            && Total(b.pendingApps, dir) == Total(a.pendingApps, dir) + Part(billed, dir)
            && OfApp(b.appTotals, app, dir) - OfApp(a.appTotals, app, dir)
               == OfApp(b.pendingApps, app, dir) - OfApp(a.pendingApps, app, dir)
            && b.history != [] && Times(RatePart(b.history[|b.history| - 1], dir), seconds) == Part(billed, dir)
            && |b.history| == (if |a.history| < 120 then |a.history| + 1 else |a.history|)
            && b.history[..|b.history| - 1] == a.history[|a.history| + 1 - |b.history|..]
  {
    hide Split, Rate, AddAll, Times, Total, OfApp, Push;
    var apps := Split(billed, seen);
    SplitConserves(billed, seen, dir, app);
    AddAllAdds(a.appTotals, apps, dir, app);
    AddAllAdds(a.pendingApps, apps, dir, app);
    RateIs(billed, seconds, dir);
    PushIs(a.history, Rate(billed, seconds));
  }

  lemma PushIs(history: seq<RatePoint>, p: RatePoint)
    ensures var h := Push(history, p);
            h != [] && h[|h| - 1] == p && |h| == (if |history| < 120 then |history| + 1 else |history|)
            && h[..|h| - 1] == history[|history| + 1 - |h|..]
  {
  }

  /** A device's apps add up to its total. */
  ghost predicate AppsAddUp(d: DeviceUsage) {
    forall dir: Direction :: Total(d.appTotals, dir) == Part(d.total, dir)
  }

  /** What is still pending for a MAC. */
  function Pending(u: Collector, mac: Mac): Apps { if mac in u.devices then u.devices[mac].pendingApps else [] }

  /** Every byte billed to an app of a device was reported once, is waiting to be, or was forgotten with the device. */
  ghost predicate Accounted(u: Collector, mac: Mac, app: App, dir: Direction) {
    OfApp(Of(u.billed, mac), app, dir)
    == OfApp(Of(u.drained, mac), app, dir) + OfApp(Pending(u, mac), app, dir) + OfApp(Of(u.lost, mac), app, dir)
  }

  lemma ChargeKeepsAppsAddingUp(d: DeviceUsage, billed: Counter, seen: Apps, seconds: real)
    requires AppsAddUp(d) && Nonnegative(seen) && billed.down >= 0.0 && billed.up >= 0.0 && seconds > 0.0
    ensures AppsAddUp(Charge(d, billed, seen, seconds))
  {
    hide Split, Ratio;
    forall dir: Direction
      ensures Total(AddAll(d.appTotals, Split(billed, seen)), dir) == Part(Plus(d.total, billed), dir)
    {
      SplitConserves(billed, seen, dir, UNATTRIBUTED);
      AddAllAdds(d.appTotals, Split(billed, seen), dir, UNATTRIBUTED);
    }
  }

  datatype Event =
    | Ticking(admitted: seq<Mac>, counters: map<Mac, Counter>, seen: map<Mac, Apps>, seconds: real)
    | Draining(mac: Mac)

  ghost predicate IsSound(e: Event) {
    e.Ticking? ==> e.seconds > 0.0 && forall mac :: mac in e.seen ==> Nonnegative(e.seen[mac])
  }

  ghost predicate AreSound(es: seq<Event>) { forall i :: 0 <= i < |es| ==> IsSound(es[i]) }

  ghost function Next(u: Collector, e: Event): Collector
    requires IsSound(e)
  {
    match e
    case Ticking(admitted, counters, seen, seconds) => Tick(u, admitted, counters, seen, seconds)
    case Draining(mac) => Drain(u, mac)
  }

  ghost function After(u: Collector, es: seq<Event>): Collector
    requires AreSound(es)
  {
    if es == [] then u
    else
      assert IsSound(es[|es| - 1]);
      Next(After(u, es[..|es| - 1]), es[|es| - 1])
  }

  /** What a tick does to everything that is kept about one device's apps. */
  lemma TickLedgers(u: Collector, e: Event, mac: Mac)
    requires e.Ticking? && IsSound(e)
    ensures var u', apps := Next(u, e), Split(BilledTo(u, e.admitted, e.counters, mac), Seen(e.seen, mac));
            Of(u'.drained, mac) == Of(u.drained, mac)
            && if mac in e.admitted
               then Of(u'.billed, mac) == AddAll(Of(u.billed, mac), apps)
                    && Pending(u', mac) == AddAll(Pending(u, mac), apps)
                    && Of(u'.lost, mac) == Of(u.lost, mac)
               else Of(u'.billed, mac) == Of(u.billed, mac) && Pending(u', mac) == []
                    && Of(u'.lost, mac) == AddAll(Of(u.lost, mac), Pending(u, mac))
  {
    hide Split, AddAll, BilledTo, Seen, Rate, Push, SumBilled;
    NothingAdded(Of(u.lost, mac));
  }

  lemma TickStaysAccounted(u: Collector, e: Event, mac: Mac, app: App, dir: Direction)
    requires e.Ticking? && IsSound(e) && Accounted(u, mac, app, dir)
    ensures Accounted(Next(u, e), mac, app, dir)
  {
    hide Next, Split, AddAll, BilledTo, Seen, Of, Pending, OfApp;
    TickLedgers(u, e, mac);
    if mac in e.admitted {
      var apps := Split(BilledTo(u, e.admitted, e.counters, mac), Seen(e.seen, mac));
      AddAllAdds(Of(u.billed, mac), apps, dir, app);
      AddAllAdds(Pending(u, mac), apps, dir, app);
    } else {
      AddAllAdds(Of(u.lost, mac), Pending(u, mac), dir, app);
      NothingOf(app, dir);
    }
  }

  lemma NothingOf(app: App, dir: Direction)
    ensures OfApp([], app, dir) == 0.0
  {
  }

  lemma NothingAdded(m: Apps)
    ensures AddAll(m, []) == m
  {
  }

  lemma DrainStaysAccounted(u: Collector, drained: Mac, mac: Mac, app: App, dir: Direction)
    requires Accounted(u, mac, app, dir)
    ensures Accounted(Drain(u, drained), mac, app, dir)
  {
    AddAllAdds(Of(u.drained, mac), Pending(u, mac), dir, app);
  }

  /**
   * Over any run of ticks and drains, for every device, app and direction: what was billed
   * is what was reported, plus what is pending, plus what was forgotten when the device left.
   */
  lemma {:induction false} AppBytesAreConserved(es: seq<Event>, mac: Mac, app: App, dir: Direction)
    requires AreSound(es)
    ensures Accounted(After(IDLE, es), mac, app, dir)
  {
    hide Accounted;
    if es == [] {
      NothingBilledYet(mac, app, dir);
    } else {
      var before, e := After(IDLE, es[..|es| - 1]), es[|es| - 1];
      AppBytesAreConserved(es[..|es| - 1], mac, app, dir);
      assert IsSound(e);
      if e.Ticking? {
        TickStaysAccounted(before, e, mac, app, dir);
      } else {
        DrainStaysAccounted(before, e.mac, mac, app, dir);
      }
    }
  }

  lemma NothingBilledYet(mac: Mac, app: App, dir: Direction)
    ensures Accounted(IDLE, mac, app, dir)
  {
  }

  lemma StepKeepsAppsAddingUp(u: Collector, e: Event, mac: Mac)
    requires IsSound(e) && mac in Next(u, e).devices && (mac in u.devices ==> AppsAddUp(u.devices[mac]))
    ensures AppsAddUp(Next(u, e).devices[mac])
  {
    hide Charge, AppsAddUp, Gained, Push, Rate, SumBilled, BilledAfter, LostAfter;
    if e.Ticking? {
      NewDeviceAddsUp();
      var b := BilledTo(u, e.admitted, e.counters, mac);
      NeverNegative(if mac in e.admitted then Get(u.lastTc, mac) else None, Reading(e.counters, mac));
      ChargeKeepsAppsAddingUp(Known(u.devices, mac), b, Seen(e.seen, mac), e.seconds);
    } else {
      DrainKeepsTotals(u, e.mac, mac);
    }
  }

  lemma NeverNegative(prev: Option<Counter>, cur: Counter)
    ensures Gained(prev, cur).down >= 0.0 && Gained(prev, cur).up >= 0.0
  {
  }

  /** And in every device the apps add up to its total. */
  lemma {:induction false} AppTotalsAddUp(es: seq<Event>, mac: Mac)
    requires AreSound(es) && mac in After(IDLE, es).devices
    ensures AppsAddUp(After(IDLE, es).devices[mac])
  {
    hide Next, AppsAddUp;
    if es != [] {
      var before, e := After(IDLE, es[..|es| - 1]), es[|es| - 1];
      assert IsSound(e);
      if mac in before.devices { AppTotalsAddUp(es[..|es| - 1], mac); }
      StepKeepsAppsAddingUp(before, e, mac);
    }
  }

  lemma NewDeviceAddsUp()
    ensures AppsAddUp(NEW_DEVICE)
  {
  }

  lemma DrainKeepsTotals(u: Collector, drained: Mac, mac: Mac)
    requires mac in u.devices && AppsAddUp(u.devices[mac])
    ensures AppsAddUp(Drain(u, drained).devices[mac])
  {
  }

  // ---- What is lost ----

  /** A device leaves at this tick while bytes of it are pending. */
  ghost predicate LeavesPending(u: Collector, e: Event) {
    e.Ticking? && exists mac :: mac in u.devices && mac !in e.admitted && u.devices[mac].pendingApps != []
  }

  /** Nothing was forgotten so far. */
  ghost predicate LostNothing(u: Collector) { forall mac :: mac in u.lost ==> u.lost[mac] == [] }

  lemma {:induction false} AddAllGrows(m: Apps, apps: Apps)
    ensures |AddAll(m, apps)| >= |m|
    ensures apps != [] ==> AddAll(m, apps) != []
    decreases |apps|
  {
    if apps != [] {
      PutGrows(m, apps[0].0, Plus(match Find(m, apps[0].0) case None => NONE case Some(was) => was, apps[0].1));
      AddAllGrows(Add(m, apps[0].0, apps[0].1), apps[1..]);
    }
  }

  lemma {:induction false} PutGrows(m: Apps, app: App, c: Counter)
    ensures |Put(m, app, c)| >= |m| && Put(m, app, c) != []
  {
    if m != [] && m[0].0 != app { PutGrows(m[1..], app, c); }
  }

  lemma LostAfterEffect(u: Collector, admitted: seq<Mac>, mac: Mac)
    ensures mac in LostAfter(u, admitted) <==> mac in u.lost || mac in u.devices
    ensures mac in LostAfter(u, admitted) ==>
              (LostAfter(u, admitted)[mac] == []
               <==> Of(u.lost, mac) == []
                    && (mac in u.devices && mac !in admitted ==> u.devices[mac].pendingApps == []))
  {
    hide AddAll;
    if mac in u.devices {
      AddAllGrows(Of(u.lost, mac), u.devices[mac].pendingApps);
      NothingAdded(Of(u.lost, mac));
    }
  }

  /** Once forgotten, bytes stay forgotten; a step forgets some exactly when a device leaves with bytes pending. */
  lemma StepLosesExactlyWhen(u: Collector, e: Event)
    requires IsSound(e)
    ensures LostNothing(Next(u, e)) <==> LostNothing(u) && !LeavesPending(u, e)
  {
    if e.Ticking? {
      hide LostAfter, BilledAfter, Charge, Push, Rate, SumBilled;
      var lost := LostAfter(u, e.admitted);
      forall mac: Mac
        ensures mac in lost <==> mac in u.lost || mac in u.devices
        ensures mac in lost ==>
                  (lost[mac] == []
                   <==> Of(u.lost, mac) == []
                        && (mac in u.devices && mac !in e.admitted ==> u.devices[mac].pendingApps == []))
      {
        LostAfterEffect(u, e.admitted, mac);
      }
      if !LostNothing(u) {
        var mac :| mac in u.lost && u.lost[mac] != [];
        assert mac in lost && lost[mac] != [];
      }
    }
  }

  /** No device leaves in this run while bytes of it are pending. */
  ghost predicate NoneLeavesPending(u: Collector, es: seq<Event>)
    requires AreSound(es)
  {
    es == []
    || (NoneLeavesPending(u, es[..|es| - 1]) && !LeavesPending(After(u, es[..|es| - 1]), es[|es| - 1]))
  }

  /** Over any run nothing is forgotten exactly when no device leaves with bytes pending. */
  lemma {:induction false} NothingIsLostExactlyWhen(es: seq<Event>)
    requires AreSound(es)
    ensures LostNothing(After(IDLE, es)) <==> NoneLeavesPending(IDLE, es)
  {
    if es != [] {
      NothingIsLostExactlyWhen(es[..|es| - 1]);
      assert IsSound(es[|es| - 1]);
      StepLosesExactlyWhen(After(IDLE, es[..|es| - 1]), es[|es| - 1]);
    }
  }

  /** A device downloads 100 bytes and is gone at the next tick. */
  function ComeAndGo(mac: Mac): seq<Event> {
    [Ticking([mac], map[mac := NONE], map[], 5.0), Ticking([mac], map[mac := Counter(100.0, 0.0)], map[], 5.0),
     Ticking([], map[], map[], 5.0)]
  }

  lemma LeavingLosesPending(mac: Mac)
    ensures AreSound(ComeAndGo(mac)) && Total(Of(After(IDLE, ComeAndGo(mac)).lost, mac), Down) == 100.0
  {
    hide Next, After, Total, Of;
    var es := ComeAndGo(mac);
    AfterThree(es[0], es[1], es[2]);
    assert es == [es[0], es[1], es[2]];
    TickReads(IDLE, es[0], mac);
    ThreeTicks(Next(IDLE, es[0]), Next(Next(IDLE, es[0]), es[1]), es[0], es[1], es[2], mac);
  }

  lemma AfterThree(e0: Event, e1: Event, e2: Event)
    requires IsSound(e0) && IsSound(e1) && IsSound(e2)
    ensures AreSound([e0, e1, e2]) && After(IDLE, [e0, e1, e2]) == Next(Next(Next(IDLE, e0), e1), e2)
  {
    hide Next, IsSound;
    assert [e0, e1, e2][..2] == [e0, e1] && [e0, e1][..1] == [e0] && [e0][..0] == [];
    assert AreSound([]) && After(IDLE, []) == IDLE;
    assert AreSound([e0]) && After(IDLE, [e0]) == Next(IDLE, e0);
    assert AreSound([e0, e1]) && After(IDLE, [e0, e1]) == Next(After(IDLE, [e0]), e1);
  }

  lemma TickReads(u: Collector, e: Event, mac: Mac)
    requires e.Ticking? && IsSound(e) && mac in e.admitted
    ensures mac in Next(u, e).lastTc && Next(u, e).lastTc[mac] == Reading(e.counters, mac)
  {
    hide Charge, BilledAfter, LostAfter, Push, Rate, SumBilled;
  }

  lemma ThreeTicks(u1: Collector, u2: Collector, e0: Event, e1: Event, e2: Event, mac: Mac)
    requires e0.Ticking? && e1.Ticking? && e2.Ticking? && IsSound(e0) && IsSound(e1) && IsSound(e2)
    requires mac in e0.admitted && mac in e1.admitted && mac !in e2.admitted && e0.seen == map[] == e1.seen
    requires u1 == Next(IDLE, e0) && u2 == Next(u1, e1)
    requires BilledTo(IDLE, e0.admitted, e0.counters, mac) == NONE
    requires BilledTo(u1, e1.admitted, e1.counters, mac) == Counter(100.0, 0.0)
    ensures Total(Of(Next(u2, e2).lost, mac), Down) == 100.0
  {
    hide Next, Split, AddAll, BilledTo, Total;
    TickLedgers(IDLE, e0, mac);
    TickLedgers(u1, e1, mac);
    TickLedgers(u2, e2, mac);
    SplitConserves(NONE, [], Down, UNATTRIBUTED);
    SplitConserves(Counter(100.0, 0.0), [], Down, UNATTRIBUTED);
    NoTotal();
    AddAllAdds([], Split(NONE, []), Down, UNATTRIBUTED);
    AddAllAdds(Pending(u1, mac), Split(Counter(100.0, 0.0), []), Down, UNATTRIBUTED);
    AddAllAdds([], Pending(u2, mac), Down, UNATTRIBUTED);
  }

  lemma NoTotal()
    ensures Total([], Down) == 0.0
  {
  }

  function LastPoint(u: Collector, mac: Mac): RatePoint {
    if mac in u.devices && u.devices[mac].history != []
    then u.devices[mac].history[|u.devices[mac].history| - 1]
    else RatePoint(0.0, 0.0)
  }

  function SumOfLastPoints(u: Collector, macs: seq<Mac>): RatePoint {
    if macs == [] then RatePoint(0.0, 0.0)
    else
      var before, last := SumOfLastPoints(u, macs[..|macs| - 1]), LastPoint(u, macs[|macs| - 1]);
      RatePoint(before.down + last.down, before.up + last.up)
  }

  lemma LastPointIsRate(u: Collector, admitted: seq<Mac>, counters: map<Mac, Counter>, seen: map<Mac, Apps>,
                        seconds: real, mac: Mac)
    requires seconds > 0.0 && mac in admitted
    ensures LastPoint(Tick(u, admitted, counters, seen, seconds), mac)
            == Rate(BilledTo(u, admitted, counters, mac), seconds)
  {
    hide Split, Ratio, Push, AddAll, Plus, BilledTo, Seen;
    var d := Known(u.devices, mac);
    PushEndsWith(d.history, Rate(BilledTo(u, admitted, counters, mac), seconds));
  }

  lemma RateOfSum(a: Counter, b: Counter, seconds: real)
    requires seconds > 0.0
    ensures Rate(Plus(a, b), seconds)
            == RatePoint(Rate(a, seconds).down + Rate(b, seconds).down, Rate(a, seconds).up + Rate(b, seconds).up)
    ensures Rate(NONE, seconds) == RatePoint(0.0, 0.0)
  {
  }

  lemma {:induction false} RatesAddUp(u: Collector, admitted: seq<Mac>, counters: map<Mac, Counter>,
                                      seen: map<Mac, Apps>, seconds: real, n: nat)
    requires seconds > 0.0 && n <= |admitted|
    ensures SumOfLastPoints(Tick(u, admitted, counters, seen, seconds), admitted[..n])
            == Rate(SumBilled(u, admitted, counters, n), seconds)
  {
    hide Ratio, Tick;
    RateOfSum(NONE, NONE, seconds);
    if n > 0 {
      RateOfSum(SumBilled(u, admitted, counters, n - 1), BilledTo(u, admitted, counters, admitted[n - 1]), seconds);
      RatesAddUp(u, admitted, counters, seen, seconds, n - 1);
      LastPointIsRate(u, admitted, counters, seen, seconds, admitted[n - 1]);
      assert admitted[..n][..n - 1] == admitted[..n - 1];
    }
  }

  /** The network's newest point is the sum of the devices' newest points. */
  lemma NetworkPointIsSumOfDevices(u: Collector, admitted: seq<Mac>, counters: map<Mac, Counter>, seen: map<Mac, Apps>,
                                   seconds: real)
    requires seconds > 0.0
    ensures var u' := Tick(u, admitted, counters, seen, seconds);
            u'.networkHistory != [] && u'.networkHistory[|u'.networkHistory| - 1] == SumOfLastPoints(u', admitted)
  {
    hide Charge, SumOfLastPoints, Ratio;
    RatesAddUp(u, admitted, counters, seen, seconds, |admitted|);
    assert admitted[..|admitted|] == admitted;
    PushEndsWith(u.networkHistory, Rate(SumBilled(u, admitted, counters, |admitted|), seconds));
  }

  lemma PushEndsWith(history: seq<RatePoint>, p: RatePoint)
    ensures Push(history, p) != [] && Push(history, p)[|Push(history, p)| - 1] == p
  {
  }

  function Newest(points: seq<RatePoint>): seq<RatePoint> {
    if |points| <= HISTORY_POINTS then points else points[|points| - HISTORY_POINTS..]
  }

  /** A history built by pushes is always the newest 120 of all points ever pushed. */
  lemma PushKeepsNewest(points: seq<RatePoint>, p: RatePoint)
    ensures Push(Newest(points), p) == Newest(points + [p])
  {
  }

  /** In this run the device stays admitted and its class counter never falls. */
  ghost predicate KeepsCounting(u: Collector, es: seq<Event>, mac: Mac)
    requires AreSound(es)
  {
    es == []
    || (KeepsCounting(u, es[..|es| - 1], mac)
        && var e := es[|es| - 1];
           e.Ticking? ==>
             mac in e.admitted && NotBelow(Reading(e.counters, mac), Get(After(u, es[..|es| - 1]).lastTc, mac)))
  }

  predicate NotBelow(c: Counter, last: Option<Counter>) {
    last.Some? ==> c.down >= last.value.down && c.up >= last.value.up
  }

  /** Over such a run, what a device is billed is exactly what its class counter grew by. */
  lemma {:induction false} BilledIsGrowth(u: Collector, es: seq<Event>, mac: Mac)
    requires AreSound(es) && mac in u.devices && mac in u.lastTc && KeepsCounting(u, es, mac)
    ensures var u' := After(u, es);
            mac in u'.devices && mac in u'.lastTc
            && u'.devices[mac].total.down == u.devices[mac].total.down + u'.lastTc[mac].down - u.lastTc[mac].down
            && u'.devices[mac].total.up == u.devices[mac].total.up + u'.lastTc[mac].up - u.lastTc[mac].up
  {
    if es != [] {
      var before, e := After(u, es[..|es| - 1]), es[|es| - 1];
      BilledIsGrowth(u, es[..|es| - 1], mac);
      assert IsSound(e);
      hide Split, AddAll, Push, Rate, SumBilled, BilledAfter, LostAfter;
    }
  }
}

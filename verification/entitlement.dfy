/**
 * Vouchers, the devices that hold their slots, and the sessions that are billed.
 *
 * Each operation is one atomic step on the three tables; a row's position is its id.
 * `gone` holds the MAC addresses a presence probe would confirm absent; the code treats
 * "present" and "don't know" alike.
 */
module Entitlement {
  import opened Options

  const DEVICE_SLOT_STALE_MS := 600_000
  const MAC_HANDOVER_WINDOW_MS := 900_000
  const BYTES_PER_MB := 1_048_576.0

  datatype VoucherStatus = UNUSED | ACTIVE | EXPIRED | DEPLETED | SUSPENDED

  datatype Package = Package(durationMinutes: Option<nat>, dataCapMb: Option<nat>, deviceLimit: nat)

  /** The successful payment a voucher was issued for: the device that paid, and when. */
  datatype Paid = Paid(mac: string, at: int)

  datatype Voucher = Voucher(
    status: VoucherStatus,
    package: Package,
    payment: Option<Paid>,
    activatedAt: Option<int>,
    expiresAt: Option<int>,
    dataUsedMb: real)

  datatype Device = Device(
    voucher: nat,
    mac: string,
    hostname: Option<string>,
    isBlocked: bool,
    releasedAt: Option<int>,
    lastSeenAt: int)

  datatype Session = Session(device: nat, voucher: nat, endedAt: Option<int>, bytesUp: nat, bytesDown: nat)

  datatype Db = Db(vouchers: seq<Voucher>, devices: seq<Device>, sessions: seq<Session>)

  datatype Outcome =
    | Connected(voucher: nat, device: nat)
    | VoucherNotFound
    | VoucherSuspended
    | NoLongerValid
    | DeviceBlocked
    | VoucherFull
    | VoucherExpired
    | NotEntitled

  // ---- Queries ----

  predicate IsOpen(s: Session) { s.endedAt == None }

  predicate HoldsSlot(d: Device) { !d.isBlocked && d.releasedAt == None }

  predicate Usable(v: Voucher, now: int) {
    (v.expiresAt == None || v.expiresAt.value > now)
    && (v.package.dataCapMb == None || v.package.dataCapMb.value == 0
       || v.dataUsedMb < v.package.dataCapMb.value as real)
  }

  /** The selected index with the least key, the lowest such index on a tie: "order by key, take the first". */
  function First(n: nat, selected: nat -> bool, key: nat -> int): (r: Option<nat>)
    ensures r.None? ==> forall i: nat :: i < n ==> !selected(i)
    ensures r.Some? ==> r.value < n && selected(r.value)
    ensures r.Some? ==>
              forall i: nat :: i < n && selected(i) ==>
                key(r.value) < key(i) || (key(r.value) == key(i) && r.value <= i)
  {
    if n == 0 then None
    else
      var before := First(n - 1, selected, key);
      if !selected(n - 1) then before
      else if before.Some? && key(before.value) <= key(n - 1) then before
      else Some(n - 1)
  }

  predicate IsRow(db: Db, v: nat, mac: string, d: nat) {
    d < |db.devices| && db.devices[d].voucher == v && db.devices[d].mac == mac
  }

  /** The device row of a MAC address on a voucher; at most one exists. */
  function FindDevice(db: Db, v: nat, mac: string): (r: Option<nat>)
    ensures r.Some? ==> IsRow(db, v, mac, r.value) && forall d: nat :: IsRow(db, v, mac, d) ==> r.value <= d
    ensures r.None? ==> forall d: nat :: !IsRow(db, v, mac, d)
  {
    var selected := (d: nat) => IsRow(db, v, mac, d);
    assert forall d: nat {:trigger IsRow(db, v, mac, d)} :: selected(d) == IsRow(db, v, mac, d);
    First(|db.devices|, selected, (d: nat) => d)
  }

  /** A slot holder other than `mac`, and one that can give its slot up. */
  predicate IsHolder(db: Db, v: nat, mac: string, d: nat) {
    d < |db.devices| && db.devices[d].voucher == v && HoldsSlot(db.devices[d]) && db.devices[d].mac != mac
  }

  predicate CanYield(db: Db, d: nat, now: int, gone: set<string>)
    requires d < |db.devices|
  {
    now - db.devices[d].lastSeenAt >= DEVICE_SLOT_STALE_MS || db.devices[d].mac in gone
  }

  function Holders(db: Db, v: nat): set<nat> {
    set d: nat | d < |db.devices| && db.devices[d].voucher == v && HoldsSlot(db.devices[d])
  }

  function OtherHolders(db: Db, v: nat, mac: string): set<nat> {
    set d: nat | d < |db.devices| && IsHolder(db, v, mac, d)
  }

  function LastSeen(db: Db, d: nat): int { if d < |db.devices| then db.devices[d].lastSeenAt else 0 }

  predicate CanGiveUp(db: Db, v: nat, mac: string, now: int, gone: set<string>, d: nat) {
    IsHolder(db, v, mac, d) && CanYield(db, d, now, gone)
  }

  /** The holder that gives up its slot: the stalest of those that can. */
  function Yielder(db: Db, v: nat, mac: string, now: int, gone: set<string>): (r: Option<nat>)
    ensures r.Some? ==> CanGiveUp(db, v, mac, now, gone, r.value)
    ensures r.Some? ==> forall d: nat :: CanGiveUp(db, v, mac, now, gone, d) ==> d == r.value || Staler(db, r.value, d)
    ensures r.None? ==> forall d: nat :: !CanGiveUp(db, v, mac, now, gone, d)
  {
    var selected := (d: nat) => CanGiveUp(db, v, mac, now, gone, d);
    var key := (d: nat) => LastSeen(db, d);
    assert forall d: nat {:trigger CanGiveUp(db, v, mac, now, gone, d)} ::
        selected(d) == CanGiveUp(db, v, mac, now, gone, d) && key(d) == LastSeen(db, d);
    First(|db.devices|, selected, key)
  }

  /** `a` comes before `b` in a stable sort by last activity. */
  predicate Staler(db: Db, a: nat, b: nat) {
    LastSeen(db, a) < LastSeen(db, b) || (LastSeen(db, a) == LastSeen(db, b) && a < b)
  }

  // ---- Single statements ----

  function EndWhere(sessions: seq<Session>, ends: Session -> bool, now: int): seq<Session> {
    seq(|sessions|, i requires 0 <= i < |sessions| =>
      if IsOpen(sessions[i]) && ends(sessions[i]) then sessions[i].(endedAt := Some(now)) else sessions[i])
  }

  function EndOfDevice(sessions: seq<Session>, d: nat, now: int): seq<Session> {
    EndWhere(sessions, (s: Session) => s.device == d, now)
  }

  function EndOfVoucher(sessions: seq<Session>, v: nat, now: int): seq<Session> {
    EndWhere(sessions, (s: Session) => s.voucher == v, now)
  }

  function Release(db: Db, d: nat, now: int): Db
    requires d < |db.devices|
  {
    db.(devices := db.devices[d := db.devices[d].(releasedAt := Some(now))],
        sessions := EndOfDevice(db.sessions, d, now))
  }

  /** Marks a device as seen, taking its slot back if it had been released. */
  function Seen(db: Db, d: nat, hostname: Option<string>, now: int): Db
    requires d < |db.devices|
  {
    var row := db.devices[d];
    db.(devices := db.devices[d := row.(releasedAt := None, lastSeenAt := now,
                                        hostname := if hostname.Some? then hostname else row.hostname)])
  }

  function AddDevice(db: Db, v: nat, mac: string, hostname: Option<string>, now: int): Db {
    db.(devices := db.devices + [Device(v, mac, hostname, false, None, now)])
  }

  function OpenSession(db: Db, d: nat, v: nat): Db {
    db.(sessions := db.sessions + [Session(d, v, None, 0, 0)])
  }

  function SetVoucher(db: Db, v: nat, voucher: Voucher): Db
    requires v < |db.vouchers|
  {
    db.(vouchers := db.vouchers[v := voucher])
  }

  function Expiry(package: Package, activatedAt: int): Option<int> {
    if package.durationMinutes.Some? && package.durationMinutes.value != 0
    then Some(activatedAt + package.durationMinutes.value * 60_000)
    else None
  }

  // ---- Operations ----

  /** Finds room for a device row on a voucher and binds it; no room leaves everything as it was. */
  function Bind(db: Db, v: nat, mac: string, hostname: Option<string>, now: int, gone: set<string>): Option<Db>
    requires v < |db.vouchers|
  {
    var found := FindDevice(db, v, mac);
    if found.Some? && db.devices[found.value].releasedAt == None then Some(Seen(db, found.value, hostname, now))
    else
      var full := |OtherHolders(db, v, mac)| >= db.vouchers[v].package.deviceLimit;
      var yielder := Yielder(db, v, mac, now, gone);
      if full && yielder == None then None
      else
        var room := if full then Release(db, yielder.value, now) else db;
        Some(if found.Some? then Seen(room, found.value, hostname, now) else AddDevice(room, v, mac, hostname, now))
  }

  function Redeem(db: Db, v: nat, mac: string, hostname: Option<string>, now: int, gone: set<string>): (Db, Outcome) {
    if v >= |db.vouchers| then (db, VoucherNotFound)
    else if db.vouchers[v].status == SUSPENDED then (db, VoucherSuspended)
    else if db.vouchers[v].status == EXPIRED || db.vouchers[v].status == DEPLETED then (db, NoLongerValid)
    else
      var found := FindDevice(db, v, mac);
      if found.Some? && db.devices[found.value].isBlocked then (db, DeviceBlocked)
      else
        var bound := Bind(db, v, mac, hostname, now, gone);
        if bound == None then (db, VoucherFull)
        else
          var d := if found.Some? then found.value else |db.devices|;
          var voucher := db.vouchers[v];
          if voucher.status == UNUSED then
            var active := voucher.(status := ACTIVE, activatedAt := Some(now),
                                   expiresAt := Expiry(voucher.package, now));
            (Reopen(SetVoucher(bound.value, v, active), d, v, now), Connected(v, d))
          else if voucher.expiresAt.Some? && voucher.expiresAt.value < now then
            (SetVoucher(bound.value, v, voucher.(status := EXPIRED)), VoucherExpired)
          else
            (Reopen(bound.value, d, v, now), Connected(v, d))
  }

  /** Replaces a device's open session rather than stacking another on top. */
  function Reopen(db: Db, d: nat, v: nat, now: int): Db {
    OpenSession(db.(sessions := EndOfDevice(db.sessions, d, now)), d, v)
  }

  predicate IsEntitled(db: Db, mac: string, now: int, d: nat) {
    d < |db.devices| && db.devices[d].mac == mac && HoldsSlot(db.devices[d])
    && db.devices[d].voucher < |db.vouchers|
    && db.vouchers[db.devices[d].voucher].status == ACTIVE && Usable(db.vouchers[db.devices[d].voucher], now)
  }

  /** An active device of the same name that was seen lately and has left. */
  predicate CanHandOver(db: Db, mac: string, hostname: string, now: int, gone: set<string>, d: nat) {
    d < |db.devices| && db.devices[d].hostname == Some(hostname) && db.devices[d].mac != mac && HoldsSlot(db.devices[d])
    && db.devices[d].lastSeenAt >= now - MAC_HANDOVER_WINDOW_MS
    && db.devices[d].voucher < |db.vouchers|
    && db.vouchers[db.devices[d].voucher].status == ACTIVE && Usable(db.vouchers[db.devices[d].voucher], now)
    && db.devices[d].mac in gone
  }

  function HasOpenSession(sessions: seq<Session>, d: nat): bool {
    exists i :: 0 <= i < |sessions| && sessions[i].device == d && IsOpen(sessions[i])
  }

  /** The most recently seen device row of a MAC address that is entitled right now. */
  function EntitledDevice(db: Db, mac: string, now: int): (r: Option<nat>)
    ensures r.Some? ==> IsEntitled(db, mac, now, r.value)
    ensures r.Some? ==> forall d: nat :: IsEntitled(db, mac, now, d) ==> LastSeen(db, d) <= LastSeen(db, r.value)
    ensures r.None? ==> forall d: nat :: !IsEntitled(db, mac, now, d)
  {
    var selected := (d: nat) => IsEntitled(db, mac, now, d);
    var key := (d: nat) => -LastSeen(db, d);
    assert forall d: nat {:trigger IsEntitled(db, mac, now, d)} ::
             selected(d) == IsEntitled(db, mac, now, d) && key(d) == -LastSeen(db, d);
    First(|db.devices|, selected, key)
  }

  /** The most recently seen device that can hand its login over. */
  function HandOverFrom(db: Db, mac: string, hostname: string, now: int, gone: set<string>): (r: Option<nat>)
    ensures r.Some? ==> CanHandOver(db, mac, hostname, now, gone, r.value)
    ensures r.Some? ==>
              forall d: nat :: CanHandOver(db, mac, hostname, now, gone, d) ==> LastSeen(db, d) <= LastSeen(db, r.value)
    ensures r.None? ==> forall d: nat :: !CanHandOver(db, mac, hostname, now, gone, d)
  {
    var selected := (d: nat) => CanHandOver(db, mac, hostname, now, gone, d);
    var key := (d: nat) => -LastSeen(db, d);
    assert forall d: nat {:trigger CanHandOver(db, mac, hostname, now, gone, d)} ::
        selected(d) == CanHandOver(db, mac, hostname, now, gone, d) && key(d) == -LastSeen(db, d);
    First(|db.devices|, selected, key)
  }

  predicate IsPaidUnused(db: Db, mac: string, v: nat) {
    v < |db.vouchers| && db.vouchers[v].status == UNUSED && db.vouchers[v].payment.Some?
    && db.vouchers[v].payment.value.mac == mac
  }

  function PaidAt(db: Db, v: nat): int {
    if v < |db.vouchers| && db.vouchers[v].payment.Some? then db.vouchers[v].payment.value.at else 0
  }

  /** The unused voucher this MAC paid for last. */
  function PaidVoucher(db: Db, mac: string): (r: Option<nat>)
    ensures r.Some? ==> IsPaidUnused(db, mac, r.value)
    ensures r.Some? ==> forall v: nat :: IsPaidUnused(db, mac, v) ==> PaidAt(db, v) <= PaidAt(db, r.value)
    ensures r.None? ==> forall v: nat :: !IsPaidUnused(db, mac, v)
  {
    var selected := (v: nat) => IsPaidUnused(db, mac, v);
    var key := (v: nat) => -PaidAt(db, v);
    assert forall v: nat {:trigger IsPaidUnused(db, mac, v)} ::
             selected(v) == IsPaidUnused(db, mac, v) && key(v) == -PaidAt(db, v);
    First(|db.vouchers|, selected, key)
  }

  /**
   * Logs a device in without a code. `hostname` is absent when the announced name is
   * empty or too common to identify a device.
   */
  function AutoLogin(db: Db, mac: string, hostname: Option<string>, now: int, gone: set<string>): (Db, Outcome) {
    var entitled := EntitledDevice(db, mac, now);
    if entitled.Some? then
      var d, v := entitled.value, db.devices[entitled.value].voucher;
      var withSession := if HasOpenSession(db.sessions, d) then db else OpenSession(db, d, v);
      (Seen(withSession, d, hostname, now), Connected(v, d))
    else if PaidVoucher(db, mac).Some? then Redeem(db, PaidVoucher(db, mac).value, mac, hostname, now, gone)
    else if hostname == None then (db, NotEntitled)
    else
      var left := HandOverFrom(db, mac, hostname.value, now, gone);
      if left == None then (db, NotEntitled)
      else Redeem(Release(db, left.value, now), db.devices[left.value].voucher, mac, hostname, now, gone)
  }

  function Suspend(db: Db, v: nat, now: int): Db {
    if v >= |db.vouchers| then db
    else SetVoucher(db, v, db.vouchers[v].(status := SUSPENDED)).(sessions := EndOfVoucher(db.sessions, v, now))
  }

  function SetBlocked(db: Db, v: nat, d: nat, blocked: bool, now: int): Db {
    if d >= |db.devices| || db.devices[d].voucher != v then db
    else
      db.(devices := db.devices[d := db.devices[d].(isBlocked := blocked)],
          sessions := if blocked then EndOfDevice(db.sessions, d, now) else db.sessions)
  }

  /** `hostname` is absent when the sample carries none. */
  datatype Sample = Sample(mac: string, bytesUp: nat, bytesDown: nat, hostname: Option<string>)

  predicate IsBillable(db: Db, mac: string, i: nat) {
    i < |db.sessions| && IsOpen(db.sessions[i])
    && db.sessions[i].device < |db.devices| && db.devices[db.sessions[i].device].mac == mac
  }

  /** The newest open session of a MAC address. */
  function BilledSession(db: Db, mac: string): (r: Option<nat>)
    ensures r.Some? ==> IsBillable(db, mac, r.value) && forall i: nat :: IsBillable(db, mac, i) ==> i <= r.value
    ensures r.None? ==> forall i: nat :: !IsBillable(db, mac, i)
  {
    var selected := (i: nat) => IsBillable(db, mac, i);
    var key := (i: nat) => -(i as int);
    assert forall i: nat {:trigger IsBillable(db, mac, i)} ::
             selected(i) == IsBillable(db, mac, i) && key(i) == -(i as int);
    First(|db.sessions|, selected, key)
  }

  function Bill(db: Db, sample: Sample, now: int): Db {
    var billed := BilledSession(db, sample.mac);
    if billed == None then db
    else
      var s := db.sessions[billed.value];
      var bytes := sample.bytesUp + sample.bytesDown;
      var row := db.devices[s.device];
      var counted := db.(
        devices := db.devices[s.device :=
          row.(hostname := if sample.hostname.Some? then sample.hostname else row.hostname,
                                               lastSeenAt := if bytes == 0 then row.lastSeenAt else now)],
        sessions := db.sessions[billed.value := s.(bytesUp := s.bytesUp + sample.bytesUp,
                                                   bytesDown := s.bytesDown + sample.bytesDown)]);
      if bytes == 0 || s.voucher >= |db.vouchers| then counted
      else
        var voucher := db.vouchers[s.voucher];
        SetVoucher(counted, s.voucher, voucher.(dataUsedMb := voucher.dataUsedMb + bytes as real / BYTES_PER_MB))
  }

  function BillAll(db: Db, samples: seq<Sample>, now: int): Db {
    if samples == [] then db else Bill(BillAll(db, samples[..|samples| - 1], now), samples[|samples| - 1], now)
  }

  predicate IsOverdue(v: Voucher, now: int) { v.status == ACTIVE && v.expiresAt.Some? && v.expiresAt.value < now }

  predicate IsOverCap(v: Voucher) {
    v.status == ACTIVE && v.package.dataCapMb.Some? && v.dataUsedMb >= v.package.dataCapMb.value as real
  }

  function Swept(v: Voucher, now: int): Voucher {
    if IsOverdue(v, now) then v.(status := EXPIRED)
    else if IsOverCap(v) then v.(status := DEPLETED)
    else v
  }

  predicate IsOrphan(vouchers: seq<Voucher>, s: Session) {
    s.voucher >= |vouchers| || vouchers[s.voucher].status != ACTIVE
  }

  /** The minute sweep: overdue vouchers, vouchers at their cap, and every session they leave behind. */
  function ExpireOverdue(db: Db, now: int): Db {
    var vouchers := seq(|db.vouchers|, v requires 0 <= v < |db.vouchers| => Swept(db.vouchers[v], now));
    db.(vouchers := vouchers, sessions := EndWhere(db.sessions, (s: Session) => IsOrphan(vouchers, s), now))
  }

  // ---- The services, statement by statement ----

  class AccessService {
    var vouchers: seq<Voucher>
    var devices: seq<Device>
    var sessions: seq<Session>

    constructor ()
      ensures Data() == Db([], [], [])
    {
      vouchers, devices, sessions := [], [], [];
    }

    ghost function Data(): Db
      reads this
    {
      Db(vouchers, devices, sessions)
    }

    method FindOne(v: nat, mac: string) returns (found: Option<nat>)
      ensures found == FindDevice(Data(), v, mac)
    {
      var d := 0;
      while d < |devices|
        invariant d <= |devices|
        invariant forall k: nat :: k < d ==> !IsRow(Data(), v, mac, k)
      {
        if devices[d].voucher == v && devices[d].mac == mac {
          assert IsRow(Data(), v, mac, d);
          return Some(d);
        }
        d := d + 1;
      }
      return None;
    }

    method ReleaseDevice(d: nat, now: int)
      requires d < |devices|
      modifies this
      ensures Data() == Release(old(Data()), d, now)
    {
      devices := devices[d := devices[d].(releasedAt := Some(now))];
      sessions := EndOfDevice(sessions, d, now);
    }

    /** One step of the stable sort by last activity. */
    method InsertByAge(order: seq<nat>, d: nat) returns (all: seq<nat>)
      requires d < |devices| && forall k :: 0 <= k < |order| ==> order[k] < d
      requires forall k, j :: 0 <= k < j < |order| ==> Staler(Data(), order[k], order[j])
      ensures forall k, j :: 0 <= k < j < |all| ==> Staler(Data(), all[k], all[j])
      ensures |all| == |order| + 1 && forall k: nat :: k in all <==> k in order || k == d
    {
      var i := |order|;
      while i > 0 && devices[order[i - 1]].lastSeenAt > devices[d].lastSeenAt
        invariant 0 <= i <= |order|
        invariant forall j :: i <= j < |order| ==> LastSeen(Data(), order[j]) > LastSeen(Data(), d)
      {
        i := i - 1;
      }
      all := order[..i] + [d] + order[i..];
      InsertedInOrder(Data(), order, i, d);
    }

    /** The slot holders other than `mac`, stalest first. */
    method StalestFirst(v: nat, mac: string) returns (order: seq<nat>)
      ensures forall i, j :: 0 <= i < j < |order| ==> Staler(Data(), order[i], order[j])
      ensures forall d: nat :: d in order <==> IsHolder(Data(), v, mac, d)
      ensures |order| == |OtherHolders(Data(), v, mac)|
    {
      order := [];
      var d := 0;
      ghost var done: set<nat> := {};
      while d < |devices|
        invariant d <= |devices|
        invariant forall i, j :: 0 <= i < j < |order| ==> Staler(Data(), order[i], order[j])
        invariant forall k: nat :: k in order <==> k < d && IsHolder(Data(), v, mac, k)
        invariant done == set k: nat | k < d && IsHolder(Data(), v, mac, k)
        invariant |order| == |done|
      {
        if devices[d].voucher == v && !devices[d].isBlocked && devices[d].releasedAt == None && devices[d].mac != mac {
          assert forall k :: 0 <= k < |order| ==> order[k] in order;
          order := InsertByAge(order, d);
          done := done + {d};
        }
        d := d + 1;
      }
      assert done == OtherHolders(Data(), v, mac);
    }

    /** Makes room for `mac` on a full voucher, or reports that there is none. */
    method FreeSlotIfFull(v: nat, mac: string, now: int, gone: set<string>) returns (ok: bool)
      requires v < |vouchers|
      modifies this
      ensures var full := |OtherHolders(old(Data()), v, mac)| >= old(vouchers)[v].package.deviceLimit;
              var yielder := Yielder(old(Data()), v, mac, now, gone);
              ok == (!full || yielder.Some?)
              && Data() == if full && yielder.Some? then Release(old(Data()), yielder.value, now) else old(Data())
    {
      var stalestFirst := StalestFirst(v, mac);
      if |stalestFirst| < vouchers[v].package.deviceLimit { return true; }
      var i := 0;
      while i < |stalestFirst|
        invariant i <= |stalestFirst| && Data() == old(Data())
        invariant forall j :: 0 <= j < i ==> !CanGiveUp(Data(), v, mac, now, gone, stalestFirst[j])
      {
        var holder := stalestFirst[i];
        assert holder in stalestFirst;
        var idle := now - devices[holder].lastSeenAt >= DEVICE_SLOT_STALE_MS;
        if idle || devices[holder].mac in gone {
          FirstInOrderYields(Data(), v, mac, now, gone, stalestFirst, i);
          ReleaseDevice(holder, now);
          return true;
        }
        i := i + 1;
      }
      assert Yielder(Data(), v, mac, now, gone) == None;
      return false;
    }

    method RedeemCode(v: nat, mac: string, hostname: Option<string>, now: int, gone: set<string>) returns (r: Outcome)
      modifies this
      ensures (Data(), r) == Redeem(old(Data()), v, mac, hostname, now, gone)
    {
      if v >= |vouchers| { return VoucherNotFound; }
      var voucher := vouchers[v];
      if voucher.status == SUSPENDED { return VoucherSuspended; }
      if voucher.status == EXPIRED || voucher.status == DEPLETED { return NoLongerValid; }
      var found := FindOne(v, mac);
      if found.Some? && devices[found.value].isBlocked { return DeviceBlocked; }
      var d := if found.Some? then found.value else |devices|;
      var ok := BindDevice(v, mac, found, hostname, now, gone);
      if !ok { return VoucherFull; }
      if voucher.status == UNUSED {
        vouchers := vouchers[v :=
          voucher.(status := ACTIVE, activatedAt := Some(now), expiresAt := Expiry(voucher.package, now))];
      } else if voucher.expiresAt.Some? && voucher.expiresAt.value < now {
        vouchers := vouchers[v := voucher.(status := EXPIRED)];
        return VoucherExpired;
      }
      sessions := EndOfDevice(sessions, d, now);
      sessions := sessions + [Session(d, v, None, 0, 0)];
      return Connected(v, d);
    }

    /** The part of a redemption that gives the device its slot. */
    method BindDevice(v: nat, mac: string, found: Option<nat>, hostname: Option<string>, now: int, gone: set<string>)
      returns (ok: bool)
      requires v < |vouchers| && found == FindDevice(Data(), v, mac)
      modifies this
      ensures var bound := Bind(old(Data()), v, mac, hostname, now, gone);
              ok == bound.Some? && Data() == if ok then bound.value else old(Data())
    {
      if found.Some? && devices[found.value].releasedAt == None {
        Touch(found.value, hostname, now);
        return true;
      }
      ok := FreeSlotIfFull(v, mac, now, gone);
      if !ok { return; }
      if found.Some? {
        Touch(found.value, hostname, now);
      } else {
        devices := devices + [Device(v, mac, hostname, false, None, now)];
      }
    }

    method Touch(d: nat, hostname: Option<string>, now: int)
      requires d < |devices|
      modifies this
      ensures Data() == Seen(old(Data()), d, hostname, now)
    {
      devices := devices[d := devices[d].(releasedAt := None, lastSeenAt := now,
                                          hostname := if hostname.Some? then hostname else devices[d].hostname)];
    }

    method LogIn(mac: string, hostname: Option<string>, now: int, gone: set<string>) returns (r: Outcome)
      modifies this
      ensures (Data(), r) == AutoLogin(old(Data()), mac, hostname, now, gone)
    {
      var entitled := EntitledDevice(Db(vouchers, devices, sessions), mac, now);
      if entitled.Some? {
        var d, v := entitled.value, devices[entitled.value].voucher;
        if !HasOpenSession(sessions, d) {
          sessions := sessions + [Session(d, v, None, 0, 0)];
        }
        Touch(d, hostname, now);
        return Connected(v, d);
      }
      var paid := PaidVoucher(Db(vouchers, devices, sessions), mac);
      if paid.Some? {
        r := RedeemCode(paid.value, mac, hostname, now, gone);
        return;
      }
      if hostname == None { return NotEntitled; }
      var left := HandOverFrom(Db(vouchers, devices, sessions), mac, hostname.value, now, gone);
      if left == None { return NotEntitled; }
      var v := devices[left.value].voucher;
      ReleaseDevice(left.value, now);
      r := RedeemCode(v, mac, hostname, now, gone);
    }

    method SuspendVoucher(v: nat, now: int) returns (found: bool)
      modifies this
      ensures Data() == Suspend(old(Data()), v, now) && found == (v < |vouchers|)
    {
      if v >= |vouchers| { return false; }
      vouchers := vouchers[v := vouchers[v].(status := SUSPENDED)];
      sessions := EndOfVoucher(sessions, v, now);
      return true;
    }

    method SetDeviceBlocked(v: nat, d: nat, blocked: bool, now: int) returns (found: bool)
      modifies this
      ensures Data() == SetBlocked(old(Data()), v, d, blocked, now)
      ensures found == (d < |devices| && devices[d].voucher == v)
    {
      if d >= |devices| || devices[d].voucher != v { return false; }
      devices := devices[d := devices[d].(isBlocked := blocked)];
      if blocked { sessions := EndOfDevice(sessions, d, now); }
      return true;
    }

    /** The minute sweep, loop by loop. */
    method Sweep(now: int)
      modifies this
      ensures Data() == ExpireOverdue(old(Data()), now)
    {
      ghost var was := Data();
      var v := 0;
      while v < |vouchers|
        invariant v <= |vouchers| == |was.vouchers| && devices == was.devices
        invariant forall k :: 0 <= k < v ==>
                    vouchers[k]
                    == if IsOverdue(was.vouchers[k], now) then was.vouchers[k].(status := EXPIRED) else was.vouchers[k]
        invariant forall k :: v <= k < |vouchers| ==> vouchers[k] == was.vouchers[k]
        invariant EndedOnly(was.sessions, sessions, vouchers, now)
      {
        if vouchers[v].status == ACTIVE && vouchers[v].expiresAt.Some? && vouchers[v].expiresAt.value < now {
          vouchers := vouchers[v := vouchers[v].(status := EXPIRED)];
          sessions := EndOfVoucher(sessions, v, now);
        }
        v := v + 1;
      }
      v := 0;
      while v < |vouchers|
        invariant v <= |vouchers| == |was.vouchers| && devices == was.devices
        invariant forall k :: 0 <= k < v ==> vouchers[k] == Swept(was.vouchers[k], now)
        invariant forall k :: v <= k < |vouchers| ==>
                    vouchers[k]
                    == if IsOverdue(was.vouchers[k], now) then was.vouchers[k].(status := EXPIRED) else was.vouchers[k]
        invariant EndedOnly(was.sessions, sessions, vouchers, now)
      {
        if vouchers[v].status == ACTIVE && vouchers[v].package.dataCapMb.Some?
           && vouchers[v].dataUsedMb >= vouchers[v].package.dataCapMb.value as real {
          vouchers := vouchers[v := vouchers[v].(status := DEPLETED)];
          sessions := EndOfVoucher(sessions, v, now);
        }
        v := v + 1;
      }
      var all := vouchers;
      assert vouchers == ExpireOverdue(was, now).vouchers;
      sessions := EndWhere(sessions, (s: Session) => IsOrphan(all, s), now);
      assert sessions == ExpireOverdue(was, now).sessions;
    }

    method ReportTraffic(samples: seq<Sample>, now: int)
      modifies this
      ensures Data() == BillAll(old(Data()), samples, now)
    {
      ghost var was := Data();
      var i := 0;
      while i < |samples|
        invariant i <= |samples| && Data() == BillAll(was, samples[..i], now)
      {
        assert samples[..i + 1][..i] == samples[..i];
        BillOne(samples[i], now);
        i := i + 1;
      }
      assert samples[..i] == samples;
    }

    method BillOne(sample: Sample, now: int)
      modifies this
      ensures Data() == Bill(old(Data()), sample, now)
    {
      var billed: Option<nat> := None;
      var i := |sessions|;
      while i > 0 && billed == None
        invariant i <= |sessions|
        invariant billed == None ==> forall k: nat :: i <= k < |sessions| ==> !IsBillable(Data(), sample.mac, k)
        invariant billed.Some? ==> billed == BilledSession(Data(), sample.mac)
      {
        i := i - 1;
        if IsOpen(sessions[i]) && sessions[i].device < |devices| && devices[sessions[i].device].mac == sample.mac {
          assert IsBillable(Data(), sample.mac, i);
          billed := Some(i);
        }
      }
      if billed == None { return; }
      var s := sessions[billed.value];
      if sample.hostname.Some? && sample.hostname != devices[s.device].hostname {
        devices := devices[s.device := devices[s.device].(hostname := sample.hostname)];
      }
      sessions := sessions[billed.value :=
        s.(bytesUp := s.bytesUp + sample.bytesUp, bytesDown := s.bytesDown + sample.bytesDown)];
      if sample.bytesUp + sample.bytesDown > 0 {
        devices := devices[s.device := devices[s.device].(lastSeenAt := now)];
        if s.voucher >= |vouchers| { return; }
        var added := (sample.bytesUp + sample.bytesDown) as real / BYTES_PER_MB;
        vouchers := vouchers[s.voucher := vouchers[s.voucher].(dataUsedMb := vouchers[s.voucher].dataUsedMb + added)];
      }
    }
  }

  lemma InsertedInOrder(db: Db, order: seq<nat>, i: nat, d: nat)
    requires i <= |order| && d < |db.devices|
    requires forall k :: 0 <= k < |order| ==> order[k] < d
    requires forall k, j :: 0 <= k < j < |order| ==> Staler(db, order[k], order[j])
    requires forall j :: i <= j < |order| ==> LastSeen(db, order[j]) > LastSeen(db, d)
    requires i > 0 ==> LastSeen(db, order[i - 1]) <= LastSeen(db, d)
    ensures var all := order[..i] + [d] + order[i..];
            forall k, j :: 0 <= k < j < |all| ==> Staler(db, all[k], all[j])
  {
    forall k | 0 <= k < i
      ensures Staler(db, order[k], d)
    {
      if k < i - 1 { assert Staler(db, order[k], order[i - 1]); }
    }
  }

  lemma FirstInOrderYields(db: Db, v: nat, mac: string, now: int, gone: set<string>, order: seq<nat>, i: nat)
    requires i < |order|
    requires forall k, j :: 0 <= k < j < |order| ==> Staler(db, order[k], order[j])
    requires forall d: nat :: d in order <==> IsHolder(db, v, mac, d)
    requires forall j :: 0 <= j < i ==> !CanGiveUp(db, v, mac, now, gone, order[j])
    requires CanGiveUp(db, v, mac, now, gone, order[i])
    ensures Yielder(db, v, mac, now, gone) == Some(order[i])
  {
    var y := Yielder(db, v, mac, now, gone);
    assert y.value in order;
    var j :| 0 <= j < |order| && order[j] == y.value;
    if j > i { assert Staler(db, order[i], order[j]); }
  }

  /** Some sessions were ended, all of them on vouchers that are no longer active. */
  ghost predicate EndedOnly(was: seq<Session>, sessions: seq<Session>, vouchers: seq<Voucher>, now: int) {
    |sessions| == |was|
    && forall i :: 0 <= i < |was| ==>
         sessions[i] == was[i]
         || (IsOpen(was[i]) && IsOrphan(vouchers, was[i]) && sessions[i] == was[i].(endedAt := Some(now)))
  }
}

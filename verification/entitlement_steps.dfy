/**
 * What each step on the tables does, row by row and field by field: the answers of a
 * redemption and a login, and what they, a report, a sweep and the admin actions change.
 */
module EntitlementSteps {
  import opened Options
  import opened Entitlement
  import opened EntitlementRuns
  import AdmissionRuns
  import ApiList

  /** The row was open, and is now ended at this time. */
  predicate EndsAt(a: Session, b: Session, now: int) { a.endedAt == None && b == a.(endedAt := Some(now)) }

  // ---- The sweep ----

  /**
   * A sweep expires exactly the active vouchers past their end, depletes exactly the other
   * active ones at their cap, and ends exactly the open sessions of vouchers then not active.
   */
  lemma SweepDoes(db: Db, now: int)
    ensures var db' := Next(db, Sweep(now));
            db'.devices == db.devices && |db'.vouchers| == |db.vouchers| && |db'.sessions| == |db.sessions|
            && (forall v :: 0 <= v < |db.vouchers| ==>
                  var a := db.vouchers[v];
                  db'.vouchers[v]
                  == if a.status == ACTIVE && a.expiresAt.Some? && a.expiresAt.value < now then a.(status := EXPIRED)
                     else if a.status == ACTIVE && a.package.dataCapMb.Some?
                             && a.dataUsedMb >= a.package.dataCapMb.value as real then a.(status := DEPLETED)
                     else a)
            && (forall i :: 0 <= i < |db.sessions| ==>
                  var s := db.sessions[i];
                  db'.sessions[i]
                  == if s.endedAt == None && (s.voucher >= |db.vouchers| || db'.vouchers[s.voucher].status != ACTIVE)
                     then s.(endedAt := Some(now)) else s)
  {
    var db' := Next(db, Sweep(now));
    forall i | 0 <= i < |db.sessions|
      ensures db'.sessions[i]
              == if IsOpen(db.sessions[i]) && IsOrphan(db'.vouchers, db.sessions[i])
                 then db.sessions[i].(endedAt := Some(now)) else db.sessions[i]
    {
      EndWhereDoes(db.sessions, (s: Session) => IsOrphan(db'.vouchers, s), now, i);
    }
    hide EndWhere;
  }

  lemma EndWhereDoes(sessions: seq<Session>, ends: Session -> bool, now: int, i: nat)
    requires i < |sessions|
    ensures EndWhere(sessions, ends, now)[i]
            == if IsOpen(sessions[i]) && ends(sessions[i]) then sessions[i].(endedAt := Some(now)) else sessions[i]
  {
  }

  // ---- Redemption ----

  /** A slot holder of the voucher, other than this MAC. */
  predicate HoldsOn(db: Db, v: nat, mac: string, d: nat) {
    d < |db.devices| && db.devices[d].voucher == v && db.devices[d].mac != mac
    && !db.devices[d].isBlocked && db.devices[d].releasedAt == None
  }

  /** And one that has been idle for ten minutes or is confirmed absent. */
  predicate MayLeave(db: Db, v: nat, mac: string, now: int, gone: set<string>, d: nat) {
    HoldsOn(db, v, mac, d) && (now - db.devices[d].lastSeenAt >= 600_000 || db.devices[d].mac in gone)
  }

  /** This MAC's row on the voucher, which is unique. */
  predicate IsOwn(db: Db, v: nat, mac: string, d: nat) {
    d < |db.devices| && db.devices[d].voucher == v && db.devices[d].mac == mac
  }

  ghost predicate HasOwn(db: Db, v: nat, mac: string) { exists d: nat :: IsOwn(db, v, mac, d) }

  /** The MAC's own row still has its slot, or is blocked. */
  ghost predicate OwnHolds(db: Db, v: nat, mac: string) {
    exists d: nat :: IsOwn(db, v, mac, d) && db.devices[d].releasedAt == None
  }

  ghost predicate OwnBlocked(db: Db, v: nat, mac: string) {
    exists d: nat :: IsOwn(db, v, mac, d) && db.devices[d].isBlocked
  }

  /** As many other devices hold slots as the voucher has. */
  ghost predicate IsFull(db: Db, v: nat, mac: string)
    requires v < |db.vouchers|
  {
    |set d: nat | d < |db.devices| && HoldsOn(db, v, mac, d)| >= db.vouchers[v].package.deviceLimit
  }

  ghost predicate NobodyMayLeave(db: Db, v: nat, mac: string, now: int, gone: set<string>) {
    forall d: nat :: !MayLeave(db, v, mac, now, gone, d)
  }

  /** Each answer of a redemption, and when it is given. */
  lemma RedeemAnswers(db: Db, v: nat, mac: string, hostname: Option<string>, now: int, gone: set<string>)
    requires WellFormed(db)
    ensures var r := Redeem(db, v, mac, hostname, now, gone).1;
            if v >= |db.vouchers| then r == VoucherNotFound
            else if db.vouchers[v].status == SUSPENDED then r == VoucherSuspended
            else if db.vouchers[v].status in {EXPIRED, DEPLETED} then r == NoLongerValid
            else if OwnBlocked(db, v, mac) then r == DeviceBlocked
            else if !OwnHolds(db, v, mac) && IsFull(db, v, mac) && NobodyMayLeave(db, v, mac, now, gone)
            then r == VoucherFull
            else if db.vouchers[v].status == ACTIVE && db.vouchers[v].expiresAt.Some?
                    && db.vouchers[v].expiresAt.value < now then r == VoucherExpired
            else r.Connected? && r.voucher == v
  {
    FoundIsOwn(db, v, mac);
    OthersAreHolders(db, v, mac);
    if v < |db.vouchers| { LeaversYield(db, v, mac, now, gone); }
    hide FindDevice, Yielder, OtherHolders, WellFormed, HoldsOn, Reopen, Release, Seen, AddDevice;
  }

  lemma FoundIsOwn(db: Db, v: nat, mac: string)
    requires WellFormed(db)
    ensures var found := FindDevice(db, v, mac);
            (found.Some? <==> HasOwn(db, v, mac))
            && (found.Some? ==> IsOwn(db, v, mac, found.value)
                                && forall d: nat :: IsOwn(db, v, mac, d) ==> d == found.value)
  {
    var found := FindDevice(db, v, mac);
    if found.Some? { assert IsRow(db, v, mac, found.value) && IsOwn(db, v, mac, found.value); }
    forall d: nat | IsOwn(db, v, mac, d)
      ensures found == Some(d)
    {
      assert IsRow(db, v, mac, d);
    }
  }

  lemma OthersAreHolders(db: Db, v: nat, mac: string)
    ensures OtherHolders(db, v, mac) == set d: nat | d < |db.devices| && HoldsOn(db, v, mac, d)
  {
  }

  lemma LeaversYield(db: Db, v: nat, mac: string, now: int, gone: set<string>)
    ensures var y := Yielder(db, v, mac, now, gone);
            (y.None? <==> NobodyMayLeave(db, v, mac, now, gone))
            && (y.Some? ==> MayLeave(db, v, mac, now, gone, y.value)
                            && forall d: nat :: MayLeave(db, v, mac, now, gone, d) ==>
                                 d < |db.devices| && db.devices[y.value].lastSeenAt <= db.devices[d].lastSeenAt)
  {
    forall d: nat
      ensures MayLeave(db, v, mac, now, gone, d) <==> CanGiveUp(db, v, mac, now, gone, d)
    {
    }
  }

  /** The holder that leaves for this MAC: on a full voucher where it has no slot yet, the stalest that may. */
  ghost predicate Leaves(db: Db, v: nat, mac: string, now: int, gone: set<string>, d: nat)
    requires v < |db.vouchers|
  {
    !OwnHolds(db, v, mac) && IsFull(db, v, mac) && MayLeave(db, v, mac, now, gone, d)
    && forall e: nat :: MayLeave(db, v, mac, now, gone, e) ==>
         e < |db.devices| && (db.devices[d].lastSeenAt < db.devices[e].lastSeenAt
                              || (db.devices[d].lastSeenAt == db.devices[e].lastSeenAt && d <= e))
  }

  /** The row of this MAC's device after a redemption: the old one or a new one, unreleased and just seen. */
  function OwnRow(v: nat, mac: string, hostname: Option<string>, now: int, before: Option<Device>): Device {
    if before.Some? then
      Device(v, mac, if hostname.Some? then hostname else before.value.hostname, before.value.isBlocked, None, now)
    else Device(v, mac, hostname, false, None, now)
  }

  /** Device rows after device `d` was given its slot. */
  ghost predicate GivesSlot(db: Db, devices: seq<Device>, v: nat, mac: string, hostname: Option<string>, now: int,
                            gone: set<string>, d: nat)
    requires v < |db.vouchers|
  {
    d <= |db.devices| && |devices| == (if d < |db.devices| then |db.devices| else |db.devices| + 1)
    && (d < |db.devices| <==> HasOwn(db, v, mac)) && (d < |db.devices| ==> IsOwn(db, v, mac, d))
    && devices[d] == OwnRow(v, mac, hostname, now, if d < |db.devices| then Some(db.devices[d]) else None)
    && forall e: nat :: e < |db.devices| && e != d ==>
         devices[e]
         == if Leaves(db, v, mac, now, gone, e) then db.devices[e].(releasedAt := Some(now)) else db.devices[e]
  }

  /** The open sessions of whoever leaves are ended, and so are those of `d` if asked. */
  ghost predicate EndsSessions(db: Db, sessions: seq<Session>, v: nat, mac: string, now: int, gone: set<string>,
                               d: Option<nat>)
    requires v < |db.vouchers|
  {
    |sessions| >= |db.sessions|
    && forall i :: 0 <= i < |db.sessions| ==>
         var s := db.sessions[i];
         sessions[i] == if s.endedAt == None && (d == Some(s.device) || Leaves(db, v, mac, now, gone, s.device))
                        then s.(endedAt := Some(now)) else s
  }

  lemma LeaverIsYielder(db: Db, v: nat, mac: string, now: int, gone: set<string>, d: nat)
    requires v < |db.vouchers|
    ensures Leaves(db, v, mac, now, gone, d)
            <==> !OwnHolds(db, v, mac) && IsFull(db, v, mac) && Yielder(db, v, mac, now, gone) == Some(d)
  {
    var y := Yielder(db, v, mac, now, gone);
    forall e: nat
      ensures MayLeave(db, v, mac, now, gone, e) <==> CanGiveUp(db, v, mac, now, gone, e)
    {
    }
    hide IsFull, OwnHolds, Yielder, CanGiveUp;
    if y == Some(d) {
      forall e: nat | MayLeave(db, v, mac, now, gone, e)
        ensures e < |db.devices| && d < |db.devices|
        ensures db.devices[d].lastSeenAt < db.devices[e].lastSeenAt
                || (db.devices[d].lastSeenAt == db.devices[e].lastSeenAt && d <= e)
      {
        assert MayLeave(db, v, mac, now, gone, d) && CanGiveUp(db, v, mac, now, gone, e);
        assert e == d || Staler(db, d, e);
      }
    }
  }

  lemma ReleaseDoes(db: Db, y: nat, now: int, i: nat)
    requires y < |db.devices| && i < |db.sessions|
    ensures Release(db, y, now).sessions[i]
            == if db.sessions[i].endedAt == None && db.sessions[i].device == y
               then db.sessions[i].(endedAt := Some(now)) else db.sessions[i]
  {
    EndWhereDoes(db.sessions, (s: Session) => s.device == y, now, i);
  }

  lemma RoomDoes(db: Db, room: Db, v: nat, mac: string, now: int, gone: set<string>)
    requires v < |db.vouchers|
    requires !OwnHolds(db, v, mac) && !(IsFull(db, v, mac) && Yielder(db, v, mac, now, gone).None?)
    requires room == if IsFull(db, v, mac) then Release(db, Yielder(db, v, mac, now, gone).value, now) else db
    ensures room.vouchers == db.vouchers && |room.devices| == |db.devices| && |room.sessions| == |db.sessions|
    ensures forall e: nat :: e < |db.devices| ==>
              room.devices[e] == if Leaves(db, v, mac, now, gone, e) then db.devices[e].(releasedAt := Some(now))
                                 else db.devices[e]
    ensures EndsSessions(db, room.sessions, v, mac, now, gone, None)
  {
    hide Yielder, OwnHolds, IsFull, Leaves;
    forall d: nat
      ensures Leaves(db, v, mac, now, gone, d) <==> IsFull(db, v, mac) && Yielder(db, v, mac, now, gone) == Some(d)
    {
      LeaverIsYielder(db, v, mac, now, gone, d);
    }
    if IsFull(db, v, mac) {
      var y := Yielder(db, v, mac, now, gone).value;
      forall i: nat | i < |db.sessions|
        ensures room.sessions[i] == if db.sessions[i].endedAt == None && db.sessions[i].device == y
                                    then db.sessions[i].(endedAt := Some(now)) else db.sessions[i]
      {
        ReleaseDoes(db, y, now, i);
      }
    }
  }

  lemma FullIs(db: Db, v: nat, mac: string)
    requires v < |db.vouchers|
    ensures IsFull(db, v, mac) <==> |OtherHolders(db, v, mac)| >= db.vouchers[v].package.deviceLimit
  {
    OthersAreHolders(db, v, mac);
  }

  /** How a device gets its slot. */
  lemma BindDoes(db: Db, v: nat, mac: string, hostname: Option<string>, now: int, gone: set<string>, d: nat)
    requires WellFormed(db) && v < |db.vouchers| && Bind(db, v, mac, hostname, now, gone).Some?
    requires d == if FindDevice(db, v, mac).Some? then FindDevice(db, v, mac).value else |db.devices|
    ensures var b := Bind(db, v, mac, hostname, now, gone).value;
            b.vouchers == db.vouchers && |b.sessions| == |db.sessions|
            && GivesSlot(db, b.devices, v, mac, hostname, now, gone, d)
            && EndsSessions(db, b.sessions, v, mac, now, gone, None)
  {
    FoundIsOwn(db, v, mac);
    FullIs(db, v, mac);
    var found := FindDevice(db, v, mac);
    hide FindDevice, Yielder, OtherHolders, WellFormed, IsFull, MayLeave, HoldsOn, Release;
    if found.Some? && db.devices[found.value].releasedAt == None {
      assert OwnHolds(db, v, mac);
    } else {
      assert !OwnHolds(db, v, mac);
      var full := IsFull(db, v, mac);
      var room := if full then Release(db, Yielder(db, v, mac, now, gone).value, now) else db;
      RoomDoes(db, room, v, mac, now, gone);
      if found.Some? { OwnNeverLeaves(db, v, mac, now, gone, d); }
      hide Leaves, OwnHolds;
    }
  }

  lemma OwnNeverLeaves(db: Db, v: nat, mac: string, now: int, gone: set<string>, d: nat)
    requires v < |db.vouchers| && IsOwn(db, v, mac, d)
    ensures !Leaves(db, v, mac, now, gone, d)
  {
  }

  /** A voucher's row when it is first redeemed. */
  function Activated(a: Voucher, now: int): Voucher {
    a.(status := ACTIVE, activatedAt := Some(now),
       expiresAt := if a.package.durationMinutes.Some? && a.package.durationMinutes.value > 0
                    then Some(now + a.package.durationMinutes.value * 60_000) else None)
  }

  /**
   * A redemption that connects: the MAC's row holds its slot and was just seen, a full
   * voucher lost its stalest holder that may leave, a new voucher runs from now, the
   * device's open session is ended and a new one opened, and nothing else changes.
   */
  lemma RedeemConnects(db: Db, v: nat, mac: string, hostname: Option<string>, now: int, gone: set<string>)
    requires WellFormed(db) && Redeem(db, v, mac, hostname, now, gone).1.Connected?
    ensures var (db', r) := Redeem(db, v, mac, hostname, now, gone);
            var d := r.device;
            v < |db.vouchers| && r.voucher == v
            && db'.vouchers == (if db.vouchers[v].status == UNUSED
                                then db.vouchers[v := Activated(db.vouchers[v], now)] else db.vouchers)
            && GivesSlot(db, db'.devices, v, mac, hostname, now, gone, d) && !db'.devices[d].isBlocked
            && |db'.sessions| == |db.sessions| + 1 && EndsSessions(db, db'.sessions, v, mac, now, gone, Some(d))
            && db'.sessions[|db.sessions|] == Session(d, v, None, 0, 0)
            && db'.vouchers[v].status == ACTIVE
  {
    hide FindDevice, Bind, WellFormed, Leaves, GivesSlot, EndsSessions, Reopen;
    var d := Redeem(db, v, mac, hostname, now, gone).1.device;
    var b := Bind(db, v, mac, hostname, now, gone).value;
    BindDoes(db, v, mac, hostname, now, gone, d);
    ReopenDoes(db, b, d, v, mac, now, gone);
    if d < |db.devices| { OwnRowIsIn(db, b.devices, v, mac, hostname, now, gone, d); }
    SlotGiven(db, b.devices, v, mac, hostname, now, gone, d);
  }

  lemma SlotGiven(db: Db, devices: seq<Device>, v: nat, mac: string, hostname: Option<string>, now: int,
                  gone: set<string>, d: nat)
    requires v < |db.vouchers| && GivesSlot(db, devices, v, mac, hostname, now, gone, d)
    ensures d < |devices| && (devices[d].isBlocked <==> d < |db.devices| && db.devices[d].isBlocked)
  {
  }

  lemma OwnRowIsIn(db: Db, devices: seq<Device>, v: nat, mac: string, hostname: Option<string>, now: int,
                   gone: set<string>, d: nat)
    requires v < |db.vouchers| && GivesSlot(db, devices, v, mac, hostname, now, gone, d) && d < |db.devices|
    ensures IsOwn(db, v, mac, d)
  {
  }

  lemma ReopenDoes(db: Db, b: Db, d: nat, v: nat, mac: string, now: int, gone: set<string>)
    requires v < |db.vouchers| && |b.sessions| == |db.sessions|
    requires EndsSessions(db, b.sessions, v, mac, now, gone, None)
    ensures forall c: Db :: c.sessions == b.sessions ==>
              var s := Reopen(c, d, v, now);
              s.vouchers == c.vouchers && s.devices == c.devices && |s.sessions| == |db.sessions| + 1
              && EndsSessions(db, s.sessions, v, mac, now, gone, Some(d))
              && s.sessions[|db.sessions|] == Session(d, v, None, 0, 0)
  {
    hide Leaves;
    forall c: Db | c.sessions == b.sessions
      ensures |Reopen(c, d, v, now).sessions| == |db.sessions| + 1
      ensures EndsSessions(db, Reopen(c, d, v, now).sessions, v, mac, now, gone, Some(d))
      ensures Reopen(c, d, v, now).sessions[|db.sessions|] == Session(d, v, None, 0, 0)
    {
      forall i: nat | i < |db.sessions|
        ensures Reopen(c, d, v, now).sessions[i]
                == if b.sessions[i].endedAt == None && b.sessions[i].device == d
                   then b.sessions[i].(endedAt := Some(now)) else b.sessions[i]
      {
        ReopenAt(c, d, v, now, i);
      }
    }
  }

  lemma ReopenAt(c: Db, d: nat, v: nat, now: int, i: nat)
    requires i < |c.sessions|
    ensures Reopen(c, d, v, now).sessions[i]
            == if c.sessions[i].endedAt == None && c.sessions[i].device == d
               then c.sessions[i].(endedAt := Some(now)) else c.sessions[i]
  {
    EndWhereDoes(c.sessions, (s: Session) => s.device == d, now, i);
  }

  /**
   * A redemption that does not connect changes nothing, but for one that comes after the
   * voucher's end: it still gives the device its slot, and marks the voucher expired.
   */
  lemma RefusedRedemptionDoes(db: Db, v: nat, mac: string, hostname: Option<string>, now: int, gone: set<string>)
    returns (d: nat)
    requires WellFormed(db) && !Redeem(db, v, mac, hostname, now, gone).1.Connected?
    ensures var (db', r) := Redeem(db, v, mac, hostname, now, gone);
            if r != VoucherExpired then db' == db
            else
              v < |db.vouchers| && db'.vouchers == db.vouchers[v := db.vouchers[v].(status := EXPIRED)]
              && GivesSlot(db, db'.devices, v, mac, hostname, now, gone, d)
              && |db'.sessions| == |db.sessions| && EndsSessions(db, db'.sessions, v, mac, now, gone, None)
  {
    var found := FindDevice(db, v, mac);
    d := if found.Some? then found.value else |db.devices|;
    if Redeem(db, v, mac, hostname, now, gone).1 == VoucherExpired {
      BindDoes(db, v, mac, hostname, now, gone, d);
    }
    hide FindDevice, Bind, WellFormed, Leaves, GivesSlot, EndsSessions, Reopen;
  }

  // ---- Login without a code ----

  /** The voucher runs, and has time and data left. */
  predicate HasMore(v: Voucher, now: int) {
    v.status == ACTIVE && (v.expiresAt.Some? ==> v.expiresAt.value > now)
    && (v.package.dataCapMb.Some? && v.package.dataCapMb.value > 0 ==>
          v.dataUsedMb < v.package.dataCapMb.value as real)
  }

  /** An unblocked, unreleased row on such a voucher. */
  predicate IsOnline(db: Db, now: int, d: nat) {
    d < |db.devices| && !db.devices[d].isBlocked && db.devices[d].releasedAt == None
    && db.devices[d].voucher < |db.vouchers| && HasMore(db.vouchers[db.devices[d].voucher], now)
  }

  /** One that carries the announced name under another MAC, was seen in the last 15 minutes and is confirmed absent. */
  predicate HasLeft(db: Db, mac: string, hostname: string, now: int, gone: set<string>, d: nat) {
    IsOnline(db, now, d) && db.devices[d].hostname == Some(hostname) && db.devices[d].mac != mac
    && db.devices[d].lastSeenAt >= now - 900_000 && db.devices[d].mac in gone
  }

  predicate IsPaidFor(db: Db, mac: string, v: nat) {
    v < |db.vouchers| && db.vouchers[v].status == UNUSED && db.vouchers[v].payment.Some?
    && db.vouchers[v].payment.value.mac == mac
  }

  lemma OnlineIsEntitled(db: Db, mac: string, now: int, d: nat)
    ensures IsEntitled(db, mac, now, d) <==> IsOnline(db, now, d) && db.devices[d].mac == mac
  {
  }

  lemma LeftCanHandOver(db: Db, mac: string, hostname: string, now: int, gone: set<string>, d: nat)
    ensures CanHandOver(db, mac, hostname, now, gone, d) <==> HasLeft(db, mac, hostname, now, gone, d)
  {
  }

  /** The device was seen last of all these. */
  predicate SeenLast(db: Db, d: nat, e: nat) {
    d < |db.devices| && e < |db.devices| && db.devices[e].lastSeenAt <= db.devices[d].lastSeenAt
  }

  /** The tables after an open device was let in again. */
  ghost predicate LetIn(db: Db, db': Db, hostname: Option<string>, now: int, d: nat)
    requires d < |db.devices|
  {
    var a := db.devices[d];
    db'.vouchers == db.vouchers
    && db'.devices == db.devices[d := a.(releasedAt := None, lastSeenAt := now,
                                         hostname := if hostname.Some? then hostname else a.hostname)]
    && db'.sessions == if exists i ::
                            0 <= i < |db.sessions| && db.sessions[i].device == d && db.sessions[i].endedAt == None
                       then db.sessions else db.sessions + [Session(d, a.voucher, None, 0, 0)]
  }

  /** First, a device with a running voucher: the one seen last is let in, on its open session or a new one. */
  lemma LogInOfKnown(db: Db, mac: string, hostname: Option<string>, now: int, gone: set<string>, e: nat)
    requires IsOnline(db, now, e) && db.devices[e].mac == mac
    ensures var (db', r) := AutoLogin(db, mac, hostname, now, gone);
            r.Connected? && IsOnline(db, now, r.device) && db.devices[r.device].mac == mac && SeenLast(db, r.device, e)
            && r.voucher == db.devices[r.device].voucher && LetIn(db, db', hostname, now, r.device)
  {
    OnlineIsEntitled(db, mac, now, e);
    var d := EntitledDevice(db, mac, now);
    assert IsEntitled(db, mac, now, e);
    OnlineIsEntitled(db, mac, now, d.value);
    hide IsEntitled, IsOnline, EntitledDevice, PaidVoucher, HandOverFrom, Redeem;
    NoMore(db, d.value, e);
  }

  lemma NoMore(db: Db, d: nat, e: nat)
    requires d < |db.devices| && e < |db.devices| && LastSeen(db, e) <= LastSeen(db, d)
    ensures SeenLast(db, d, e)
  {
  }

  ghost predicate IsKnown(db: Db, mac: string, now: int) {
    exists d: nat :: IsOnline(db, now, d) && db.devices[d].mac == mac
  }

  /** Else, a voucher paid for from this MAC: the one paid last is redeemed. */
  lemma LogInOfPayer(db: Db, mac: string, hostname: Option<string>, now: int, gone: set<string>, w: nat)
    requires !IsKnown(db, mac, now) && IsPaidFor(db, mac, w)
    ensures var v := PaidVoucher(db, mac);
            v.Some? && IsPaidFor(db, mac, v.value)
            && db.vouchers[w].payment.value.at <= db.vouchers[v.value].payment.value.at
            && AutoLogin(db, mac, hostname, now, gone) == Redeem(db, v.value, mac, hostname, now, gone)
  {
    Unknown(db, mac, now);
    assert IsPaidUnused(db, mac, w);
    hide Redeem, HandOverFrom;
  }

  lemma Unknown(db: Db, mac: string, now: int)
    requires !IsKnown(db, mac, now)
    ensures EntitledDevice(db, mac, now) == None
  {
    var d := EntitledDevice(db, mac, now);
    if d.Some? {
      OnlineIsEntitled(db, mac, now, d.value);
    }
  }

  ghost predicate HasPaid(db: Db, mac: string) { exists w: nat :: IsPaidFor(db, mac, w) }

  lemma NotPaid(db: Db, mac: string)
    requires !HasPaid(db, mac)
    ensures PaidVoucher(db, mac) == None
  {
    var v := PaidVoucher(db, mac);
    if v.Some? { assert IsPaidFor(db, mac, v.value); }
  }

  /** The tables once a device has given up its slot: its row released, its open sessions ended. */
  ghost predicate GaveUp(db: Db, db': Db, left: nat, now: int)
    requires left < |db.devices|
  {
    db'.vouchers == db.vouchers && db'.devices == db.devices[left := db.devices[left].(releasedAt := Some(now))]
    && |db'.sessions| == |db.sessions|
    && forall i :: 0 <= i < |db.sessions| ==>
         db'.sessions[i] == if db.sessions[i].endedAt == None && db.sessions[i].device == left
                            then db.sessions[i].(endedAt := Some(now)) else db.sessions[i]
  }

  /**
   * Else, a device of the same name that has left: the one seen last gives up its slot, and
   * its voucher is redeemed for this MAC.
   */
  lemma LogInOfChangedMac(db: Db, mac: string, hostname: string, now: int, gone: set<string>, e: nat)
    returns (left: nat, released: Db)
    requires !IsKnown(db, mac, now) && !HasPaid(db, mac) && HasLeft(db, mac, hostname, now, gone, e)
    ensures HasLeft(db, mac, hostname, now, gone, left) && SeenLast(db, left, e) && GaveUp(db, released, left, now)
    ensures AutoLogin(db, mac, Some(hostname), now, gone)
            == Redeem(released, db.devices[left].voucher, mac, Some(hostname), now, gone)
  {
    Unknown(db, mac, now);
    NotPaid(db, mac);
    LeftCanHandOver(db, mac, hostname, now, gone, e);
    left := HandOverFrom(db, mac, hostname, now, gone).value;
    LeftCanHandOver(db, mac, hostname, now, gone, left);
    released := Release(db, left, now);
    forall i: nat | i < |db.sessions|
      ensures released.sessions[i] == if db.sessions[i].endedAt == None && db.sessions[i].device == left
                                      then db.sessions[i].(endedAt := Some(now)) else db.sessions[i]
    {
      ReleaseDoes(db, left, now, i);
    }
    hide Redeem, CanHandOver, EntitledDevice, PaidVoucher;
  }

  /** Else nobody is let in and nothing changes. */
  lemma LogInOfStranger(db: Db, mac: string, hostname: Option<string>, now: int, gone: set<string>)
    requires !IsKnown(db, mac, now) && !HasPaid(db, mac)
    requires hostname.Some? ==> forall d: nat :: !HasLeft(db, mac, hostname.value, now, gone, d)
    ensures AutoLogin(db, mac, hostname, now, gone) == (db, NotEntitled)
  {
    Unknown(db, mac, now);
    NotPaid(db, mac);
    if hostname.Some? {
      var left := HandOverFrom(db, mac, hostname.value, now, gone);
      if left.Some? { LeftCanHandOver(db, mac, hostname.value, now, gone, left.value); }
    }
  }

  /**
   * A voucher just paid for connects its payer: the next login of a MAC with no running
   * voucher redeems it, rather than one paid for earlier.
   */
  lemma PaidThenLoggedIn(db: Db, package: Package, mac: string, at: int, hostname: Option<string>, now: int,
                         gone: set<string>)
    requires WellFormed(db) && package.deviceLimit > 0
    requires forall w: nat :: IsPaidFor(db, mac, w) ==> db.vouchers[w].payment.value.at < at
    requires !IsKnown(Next(db, Issue(package, Some(Paid(mac, at)))), mac, now)
    ensures var r := AutoLogin(Next(db, Issue(package, Some(Paid(mac, at)))), mac, hostname, now, gone).1;
            r.Connected? && r.voucher == |db.vouchers|
  {
    var bought, v := Next(db, Issue(package, Some(Paid(mac, at)))), |db.vouchers|;
    assert IsPaidFor(bought, mac, v);
    LogInOfPayer(bought, mac, hostname, now, gone, v);
    var w := PaidVoucher(bought, mac).value;
    assert w < v ==> IsPaidFor(db, mac, w);
    NobodyYet(db, bought, v, mac);
    RedeemAnswers(bought, v, mac, hostname, now, gone);
    hide Redeem, AutoLogin, WellFormed, IsFull, OwnHolds, OwnBlocked;
  }

  lemma NobodyYet(db: Db, bought: Db, v: nat, mac: string)
    requires WellFormed(db) && v == |db.vouchers| && |bought.vouchers| == v + 1 && bought.vouchers[..v] == db.vouchers
    requires bought.devices == db.devices && bought.sessions == db.sessions
    requires bought.vouchers[v].package.deviceLimit > 0
    ensures WellFormed(bought) && !IsFull(bought, v, mac) && !OwnBlocked(bought, v, mac)
  {
    assert (set d: nat | d < |bought.devices| && HoldsOn(bought, v, mac, d)) == {};
  }

  // ---- Who is connected is online ----

  /** The MAC has its slot on the voucher, was just seen, and has an open session there. */
  ghost predicate IsServed(db: Db, v: nat, d: nat, mac: string, now: int) {
    d < |db.devices| && db.devices[d].mac == mac && db.devices[d].voucher == v && v < |db.vouchers|
    && !db.devices[d].isBlocked && db.devices[d].releasedAt == None && db.devices[d].lastSeenAt == now
    && db.vouchers[v].status == ACTIVE
    && exists i :: 0 <= i < |db.sessions| && db.sessions[i].device == d && db.sessions[i].voucher == v
                   && db.sessions[i].endedAt == None
  }

  lemma RedeemedIsServed(db: Db, v: nat, mac: string, hostname: Option<string>, now: int, gone: set<string>)
    requires WellFormed(db) && Redeem(db, v, mac, hostname, now, gone).1.Connected?
    ensures var (db', r) := Redeem(db, v, mac, hostname, now, gone);
            r.voucher == v && IsServed(db', v, r.device, mac, now)
  {
    RedeemConnects(db, v, mac, hostname, now, gone);
    hide Redeem, WellFormed, Leaves, EndsSessions;
  }

  lemma LetInIsServed(db: Db, db': Db, hostname: Option<string>, now: int, mac: string, d: nat)
    requires WellFormed(db) && IsOnline(db, now, d) && db.devices[d].mac == mac && LetIn(db, db', hostname, now, d)
    ensures IsServed(db', db.devices[d].voucher, d, mac, now)
  {
    var v := db.devices[d].voucher;
    if i :| 0 <= i < |db.sessions| && db.sessions[i].device == d && db.sessions[i].endedAt == None {
      assert db'.sessions[i].voucher == v;
    } else {
      assert db'.sessions[|db.sessions|] == Session(d, v, None, 0, 0);
    }
  }

  lemma KnownIsServed(db: Db, mac: string, hostname: Option<string>, now: int, gone: set<string>)
    requires WellFormed(db) && IsKnown(db, mac, now)
    ensures var (db', r) := AutoLogin(db, mac, hostname, now, gone);
            r.Connected? && IsServed(db', r.voucher, r.device, mac, now)
  {
    var e: nat :| IsOnline(db, now, e) && db.devices[e].mac == mac;
    hide AutoLogin, LetIn, IsOnline, IsServed, WellFormed;
    LogInOfKnown(db, mac, hostname, now, gone, e);
    var (db', r) := AutoLogin(db, mac, hostname, now, gone);
    LetInIsServed(db, db', hostname, now, mac, r.device);
  }

  lemma PayerIsServed(db: Db, mac: string, hostname: Option<string>, now: int, gone: set<string>)
    requires WellFormed(db) && !IsKnown(db, mac, now) && HasPaid(db, mac)
    requires AutoLogin(db, mac, hostname, now, gone).1.Connected?
    ensures var (db', r) := AutoLogin(db, mac, hostname, now, gone);
            IsServed(db', r.voucher, r.device, mac, now)
  {
    var w: nat :| IsPaidFor(db, mac, w);
    hide AutoLogin, IsServed, WellFormed, Redeem;
    LogInOfPayer(db, mac, hostname, now, gone, w);
    RedeemedIsServed(db, PaidVoucher(db, mac).value, mac, hostname, now, gone);
  }

  lemma ChangedMacIsServed(db: Db, mac: string, hostname: Option<string>, now: int, gone: set<string>)
    requires Disciplined(db) && !IsKnown(db, mac, now) && !HasPaid(db, mac)
    requires AutoLogin(db, mac, hostname, now, gone).1.Connected?
    ensures var (db', r) := AutoLogin(db, mac, hostname, now, gone);
            IsServed(db', r.voucher, r.device, mac, now)
  {
    Unknown(db, mac, now);
    NotPaid(db, mac);
    hide IsServed, Disciplined, Redeem, Release, EntitledDevice, PaidVoucher, HandOverFrom, CanHandOver;
    var left := HandOverFrom(db, mac, hostname.value, now, gone).value;
    HandOverIsRow(db, mac, hostname.value, now, gone);
    ReleaseKeeps(db, left, now);
    WellFormedOf(Release(db, left, now));
    RedeemedIsServed(Release(db, left, now), db.devices[left].voucher, mac, hostname, now, gone);
  }

  lemma HandOverIsRow(db: Db, mac: string, hostname: string, now: int, gone: set<string>)
    requires HandOverFrom(db, mac, hostname, now, gone).Some?
    ensures HandOverFrom(db, mac, hostname, now, gone).value < |db.devices|
  {
  }

  /** Whoever a login lets in is served. */
  lemma LoggedInIsServed(db: Db, mac: string, hostname: Option<string>, now: int, gone: set<string>)
    requires Disciplined(db) && AutoLogin(db, mac, hostname, now, gone).1.Connected?
    ensures var (db', r) := AutoLogin(db, mac, hostname, now, gone);
            IsServed(db', r.voucher, r.device, mac, now)
  {
    hide *;
    WellFormedOf(db);
    if IsKnown(db, mac, now) {
      KnownIsServed(db, mac, hostname, now, gone);
    } else if HasPaid(db, mac) {
      PayerIsServed(db, mac, hostname, now, gone);
    } else {
      ChangedMacIsServed(db, mac, hostname, now, gone);
    }
  }

  lemma WellFormedOf(db: Db)
    requires Disciplined(db)
    ensures WellFormed(db)
  {
  }

  /** And whoever is served, with time left, is named by the list the gateway syncs to. */
  lemma ServedIsListed(db: Db, v: nat, d: nat, mac: string, now: int, details: nat -> ApiList.Details)
    requires IsServed(db, v, d, mac, now) && (db.vouchers[v].expiresAt.Some? ==> db.vouchers[v].expiresAt.value > now)
    ensures exists k :: 0 <= k < |ApiList.ActiveSessions(db, details, now)|
                        && ApiList.ActiveSessions(db, details, now)[k].mac == mac
  {
    var i: nat :| i < |db.sessions| && db.sessions[i].device == d && db.sessions[i].voucher == v
                  && db.sessions[i].endedAt == None;
    var ids := ApiList.ListedFrom(db, |db.sessions|, now);
    assert ApiList.IsListed(db, i, now) && i in ids;
    var k :| 0 <= k < |ids| && ids[k] == i;
    assert ApiList.ActiveSessions(db, details, now)[k].mac == mac;
  }

  /** So every device that a redemption or a login connects, with time left, is on the list at that moment. */
  lemma ConnectedIsListed(db: Db, e: Event, details: nat -> ApiList.Details)
    requires Disciplined(db) && (e.RedeemCode? || e.LogIn?)
    ensures var r := if e.RedeemCode? then Redeem(db, e.v, e.mac, e.hostname, e.now, e.gone).1
                     else AutoLogin(db, e.mac, e.hostname, e.now, e.gone).1;
            var db' := Next(db, e);
            r.Connected? ==>
              IsServed(db', r.voucher, r.device, e.mac, e.now)
              && ((db'.vouchers[r.voucher].expiresAt.Some? ==> db'.vouchers[r.voucher].expiresAt.value > e.now) ==>
                    exists k :: 0 <= k < |ApiList.ActiveSessions(db', details, e.now)|
                                && ApiList.ActiveSessions(db', details, e.now)[k].mac == e.mac)
  {
    hide Redeem, AutoLogin, IsServed, Disciplined, ApiList.ActiveSessions;
    WellFormedOf(db);
    var r := if e.RedeemCode? then Redeem(db, e.v, e.mac, e.hostname, e.now, e.gone).1
             else AutoLogin(db, e.mac, e.hostname, e.now, e.gone).1;
    var db' := Next(db, e);
    if r.Connected? {
      if e.RedeemCode? {
        RedeemedIsServed(db, e.v, e.mac, e.hostname, e.now, e.gone);
      } else {
        LoggedInIsServed(db, e.mac, e.hostname, e.now, e.gone);
      }
      ServedHasVoucher(db', r.voucher, r.device, e.mac, e.now);
      if db'.vouchers[r.voucher].expiresAt.Some? ==> db'.vouchers[r.voucher].expiresAt.value > e.now {
        ServedIsListed(db', r.voucher, r.device, e.mac, e.now, details);
      }
    }
  }

  lemma ServedHasVoucher(db: Db, v: nat, d: nat, mac: string, now: int)
    requires IsServed(db, v, d, mac, now)
    ensures v < |db.vouchers|
  {
  }

  // ---- Reports and admin actions ----

  /** The newest open session of a device with this MAC. */
  ghost predicate IsNewestOpen(db: Db, mac: string, i: nat) {
    IsOpenOf(db, mac, i) && forall j: nat :: IsOpenOf(db, mac, j) ==> j <= i
  }

  predicate IsOpenOf(db: Db, mac: string, i: nat) {
    i < |db.sessions| && db.sessions[i].endedAt == None
    && db.sessions[i].device < |db.devices| && db.devices[db.sessions[i].device].mac == mac
  }

  /**
   * A sample adds its bytes to its MAC's newest open session and to that session's voucher,
   * names the device, and marks it as seen when there was traffic; nothing else changes.
   */
  lemma SampleDoes(db: Db, sample: Sample, now: int, i: nat)
    requires IsNewestOpen(db, sample.mac, i)
    ensures var db', s, bytes := Bill(db, sample, now), db.sessions[i], sample.bytesUp + sample.bytesDown;
            var row := db.devices[s.device];
            db'.sessions == db.sessions[i := s.(bytesUp := s.bytesUp + sample.bytesUp,
                                                bytesDown := s.bytesDown + sample.bytesDown)]
            && db'.devices == db.devices[s.device :=
                 row.(hostname := if sample.hostname.Some? then sample.hostname else row.hostname,
                      lastSeenAt := if bytes > 0 then now else row.lastSeenAt)]
            && (s.voucher < |db.vouchers| ==>
                  var v := db.vouchers[s.voucher];
                  db'.vouchers
                  == db.vouchers[s.voucher := v.(dataUsedMb := v.dataUsedMb + bytes as real / 1_048_576.0)])
            && (s.voucher >= |db.vouchers| ==> db'.vouchers == db.vouchers)
  {
    assert IsBillable(db, sample.mac, i);
    var b := BilledSession(db, sample.mac);
    assert IsOpenOf(db, sample.mac, b.value);
  }

  lemma UnownedSampleDoes(db: Db, sample: Sample, now: int)
    requires forall i: nat :: !IsOpenOf(db, sample.mac, i)
    ensures Bill(db, sample, now) == db
  {
    var b := BilledSession(db, sample.mac);
    if b.Some? { assert IsOpenOf(db, sample.mac, b.value); }
  }

  /** A suspension sets the status and ends the voucher's open sessions. */
  lemma SuspensionDoes(db: Db, v: nat, now: int)
    ensures var db' := Next(db, SuspendVoucher(v, now));
            db'.devices == db.devices && |db'.sessions| == |db.sessions|
            && (v < |db.vouchers| ==> db'.vouchers == db.vouchers[v := db.vouchers[v].(status := SUSPENDED)])
            && (v >= |db.vouchers| ==> db' == db)
            && forall i :: 0 <= i < |db.sessions| ==>
                 var s := db.sessions[i];
                 db'.sessions[i] == if v < |db.vouchers| && s.endedAt == None && s.voucher == v
                                    then s.(endedAt := Some(now)) else s
  {
    forall i: nat | i < |db.sessions|
      ensures EndOfVoucher(db.sessions, v, now)[i]
              == if db.sessions[i].endedAt == None && db.sessions[i].voucher == v
                 then db.sessions[i].(endedAt := Some(now)) else db.sessions[i]
    {
      EndWhereDoes(db.sessions, (s: Session) => s.voucher == v, now, i);
    }
  }

  /** Blocking flags the device and ends its open sessions; unblocking only clears the flag. */
  lemma BlockingDoes(db: Db, v: nat, d: nat, blocked: bool, now: int)
    ensures var db' := if blocked then Next(db, Block(v, d, now)) else Next(db, Unblock(v, d, now));
            db'.vouchers == db.vouchers && |db'.sessions| == |db.sessions|
            && (d < |db.devices| && db.devices[d].voucher == v ==>
                  db'.devices == db.devices[d := db.devices[d].(isBlocked := blocked)])
            && (d >= |db.devices| || db.devices[d].voucher != v ==> db' == db)
            && forall i :: 0 <= i < |db.sessions| ==>
                 var s := db.sessions[i];
                 db'.sessions[i] == if blocked && d < |db.devices| && db.devices[d].voucher == v
                                       && s.endedAt == None && s.device == d
                                    then s.(endedAt := Some(now)) else s
  {
    forall i: nat | i < |db.sessions|
      ensures EndOfDevice(db.sessions, d, now)[i]
              == if db.sessions[i].endedAt == None && db.sessions[i].device == d
                 then db.sessions[i].(endedAt := Some(now)) else db.sessions[i]
    {
      EndWhereDoes(db.sessions, (s: Session) => s.device == d, now, i);
    }
  }
}
